/** The draft backup kept in the browser's key/value store while the post is
    edited (public/assets/js/source/process-save.js, handlers for change,
    unload and the save response), as a transition function over the store. */
module DraftGuard {

  const BackupPrefix := "lasso_backup_"
  const WarnNoSave := "You have unsaved changes!"

  /** The browser's key/value store. */
  type Store = map<string, string>

  function BackupKey(postId: string): string {
    BackupPrefix + postId
  }

  /** Fixed when the editor loads: the post id, the editable region's HTML
      captured once at load (never updated afterwards) and the edit right. */
  datatype Session = Session(postId: string, loadedHtml: string, userCanEdit: bool)

  /** `getItem(key) && userCanEdit`: a missing key reads as null and an empty
      backup as the empty string, and both are falsy. */
  predicate BackupPending(s: Session, store: Store) {
    BackupKey(s.postId) in store && store[BackupKey(s.postId)] != "" && s.userCanEdit
  }

  /** What changes the store. `SaveSucceeded` carries the post id read from the
      controls by the click handler that sent the request. */
  datatype Event =
    | Change(html: string)
    | SaveSucceeded(savedPostId: string)
    | SaveRejected
    | TransportFailed
    | Unload

  /** One handler's effect on the store. Only the post's own backup is written;
      a save of this post removes it; failures leave the store alone. */
  function Step(s: Session, store: Store, e: Event): (r: Store)
    ensures r.Keys <= store.Keys + {BackupKey(s.postId)}
    ensures forall k :: k in r && k != BackupKey(s.postId) ==> r[k] == store[k]
    ensures e.SaveRejected? || e.TransportFailed? ==> r == store
    ensures e.SaveSucceeded? ==> r.Keys == store.Keys - {BackupKey(e.savedPostId)}
    ensures e.Unload? ==> r == store || r == map[]
    ensures e.Unload? && !BackupPending(s, store) ==> r == store
    ensures e.Unload? && BackupPending(s, store) ==> r == map[]
    ensures e.Change? ==> store.Keys <= r.Keys
    ensures e.Change? && e.html == s.loadedHtml ==> r == store
    ensures e.Change? && e.html != s.loadedHtml ==> BackupKey(s.postId) in r && r[BackupKey(s.postId)] == e.html
    ensures var key := BackupKey(s.postId);
      key in r && (key !in store || r[key] != store[key]) ==> e == Change(r[key]) && r[key] != s.loadedHtml
  {
    match e
    case Change(h) => if h != s.loadedHtml then store[BackupKey(s.postId) := h] else store
    case SaveSucceeded(p) => store - {BackupKey(p)}
    case SaveRejected => store
    case TransportFailed => store
    case Unload => if BackupPending(s, store) then map[] else store
  }

  /** The store after a sequence of events. */
  function Run(s: Session, store: Store, events: seq<Event>): Store {
    if events == [] then store
    else Step(s, Run(s, store, events[..|events| - 1]), events[|events| - 1])
  }

  lemma BackupKeyInjective(p: string, q: string)
    ensures BackupKey(p) == BackupKey(q) <==> p == q
  {
    if BackupKey(p) == BackupKey(q) {
      assert p == BackupKey(p)[|BackupPrefix|..];
      assert q == BackupKey(q)[|BackupPrefix|..];
    }
  }

  /** The editor writes no key but its own backup: every other key is either
      gone or holds the value it had before. */
  lemma {:induction false} OnlyBackupWritten(s: Session, store: Store, events: seq<Event>)
    ensures Run(s, store, events).Keys <= store.Keys + {BackupKey(s.postId)}
    ensures forall k :: k in Run(s, store, events) && k != BackupKey(s.postId) ==> Run(s, store, events)[k] == store[k]
  {
    if events != [] {
      OnlyBackupWritten(s, store, events[..|events| - 1]);
    }
  }

  /** A backup is removed only by a successful save of this post or by an unload. */
  lemma {:induction false} BackupSurvives(s: Session, store: Store, events: seq<Event>)
    requires BackupKey(s.postId) in store
    requires forall i :: 0 <= i < |events| ==> events[i] != SaveSucceeded(s.postId) && events[i] != Unload
    ensures BackupKey(s.postId) in Run(s, store, events)
  {
    if events != [] {
      var prefix := events[..|events| - 1];
      BackupSurvives(s, store, prefix);
      match events[|events| - 1]
      case SaveSucceeded(p) => BackupKeyInjective(p, s.postId);
      case _ =>
    }
  }

  /** Starting without a backup, whatever backup exists holds the HTML of some
      change event, and that HTML differs from the HTML captured at load. */
  lemma {:induction false} BackupIsAChange(s: Session, store: Store, events: seq<Event>)
    requires BackupKey(s.postId) !in store
    ensures var r := Run(s, store, events);
      BackupKey(s.postId) in r ==>
        r[BackupKey(s.postId)] != s.loadedHtml &&
        exists i :: 0 <= i < |events| && events[i] == Change(r[BackupKey(s.postId)])
  {
    if events != [] {
      var prefix := events[..|events| - 1];
      var last := events[|events| - 1];
      BackupIsAChange(s, store, prefix);
      var key := BackupKey(s.postId);
      var before := Run(s, store, prefix);
      var after := Run(s, store, events);
      if key in after {
        if last.Change? && last.html != s.loadedHtml {
          assert events[|events| - 1] == Change(after[key]);
        } else {
          assert key in before && after[key] == before[key];
          var i :| 0 <= i < |prefix| && prefix[i] == Change(before[key]);
          assert events[i] == prefix[i];
        }
      }
    }
  }

  /** One editing session: a real edit is backed up, the backup survives a
      rejected save and a successful save of the same post removes it. */
  lemma EditRejectSaveTrace(s: Session, store: Store, h: string)
    requires h != s.loadedHtml
    ensures var edited := Run(s, store, [Change(h)]);
      BackupKey(s.postId) in edited && edited[BackupKey(s.postId)] == h
    ensures var rejected := Run(s, store, [Change(h), SaveRejected]);
      BackupKey(s.postId) in rejected && rejected[BackupKey(s.postId)] == h
    ensures BackupKey(s.postId) !in Run(s, store, [Change(h), SaveRejected, SaveSucceeded(s.postId)])
  {
    assert [Change(h), SaveRejected, SaveSucceeded(s.postId)][..2] == [Change(h), SaveRejected];
    assert [Change(h), SaveRejected][..1] == [Change(h)];
    assert [Change(h)][..0] == [];
  }

  /** The HTML captured at load is never refreshed: editing and then returning
      to the loaded HTML leaves the stale backup of the edit in place. */
  lemma RevertKeepsStaleBackup(s: Session, store: Store, h: string)
    requires h != s.loadedHtml
    ensures var r := Run(s, store, [Change(h), Change(s.loadedHtml)]);
      BackupKey(s.postId) in r && r[BackupKey(s.postId)] == h
  {
    assert [Change(h), Change(s.loadedHtml)][..1] == [Change(h)];
    assert [Change(h)][..0] == [];
  }

  /** Leaving the page after a real edit clears the whole store for an editor,
      but keeps the backup when the user has no edit right. */
  lemma EditThenLeave(s: Session, store: Store, h: string)
    requires h != s.loadedHtml && h != ""
    ensures s.userCanEdit ==> Run(s, store, [Change(h), Unload]) == map[]
    ensures !s.userCanEdit ==> Run(s, store, [Change(h), Unload]) == store[BackupKey(s.postId) := h]
  {
    assert [Change(h), Unload][..1] == [Change(h)];
    assert [Change(h)][..0] == [];
    var edited := store[BackupKey(s.postId) := h];
    assert Run(s, store, [Change(h)]) == edited;
    assert BackupPending(s, edited) == s.userCanEdit;
  }
}
