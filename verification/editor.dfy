/** The editor page's save controller and draft guard as one object
    (public/assets/js/source/process-save.js): the handlers registered on load
    become methods, the browser's key/value store and the flags they update
    become fields. */
module EditorPage {
  import opened Wrappers
  import Shortcode
  import opened SaveRequest
  import opened DraftGuard

  const BeingSaved := "being-saved"
  const SavedClass := "lasso--saved"
  const ErrorClass := "lasso--error"

  class Editor {
    const session: Session
    /** The browser's key/value store. */
    var store: Store
    var dirtyByComponent: bool
    /** The classes on the save controls, as one set: `being-saved` is added
        to the clicked control only, while the saved and error classes are
        added to, and `being-saved` removed from, every save control. */
    var controlClasses: set<string>

    constructor (session: Session, store: Store, dirtyByComponent: bool)
      ensures this.session == session && this.store == store
      ensures this.dirtyByComponent == dirtyByComponent && controlClasses == {}
    {
      this.session := session;
      this.store := store;
      this.dirtyByComponent := dirtyByComponent;
      controlClasses := {};
    }

    /** The editable region changed: back it up when it differs from the HTML
        captured at load. */
    method OnChange(html: string)
      modifies this`store
      ensures store == Step(session, old(store), Change(html))
      ensures html != session.loadedHtml ==> store[BackupKey(session.postId)] == html
      ensures html == session.loadedHtml ==> store == old(store)
    {
      if session.loadedHtml != html {
        store := store[BackupKey(session.postId) := html];
      }
    }

    /** The text the browser shows before leaving, if any. */
    method OnBeforeUnload() returns (warning: Option<string>)
      ensures warning.Some? <==> BackupPending(session, store)
      ensures warning.Some? ==> warning.value == WarnNoSave
    {
      var key := BackupKey(session.postId);
      if key in store && store[key] != "" && session.userCanEdit {
        warning := Some(WarnNoSave);
      } else {
        warning := None;
      }
    }

    /** Leaving the page: the whole store is cleared, not only the backup. */
    method OnUnload()
      modifies this`store
      ensures store == Step(session, old(store), Unload)
      ensures old(BackupPending(session, store)) ==> store == map[]
      ensures !old(BackupPending(session, store)) ==> store == old(store)
    {
      var key := BackupKey(session.postId);
      if key in store && store[key] != "" && session.userCanEdit {
        store := map[];
      }
    }

    /** A click on a save or publish control. `controlsPostId` is the post id
        read from the controls, `parsed` what the HTML parser returns for
        `html` (`None` for the null an empty string gives with jQuery before
        3.0), and `confirmed` the user's answer to the publish dialog. When the
        content is to be converted and the parser gave null, reading its
        length throws: the handler stops after marking the control as being
        saved, and no request is sent. */
    method OnSaveClick(trigger: Trigger, html: string, parsed: Option<seq<Shortcode.Node>>, author: string,
                       controlsPostId: string, nonce: string, confirmed: bool)
      returns (sent: seq<Payload>)
      requires parsed.None? ==> html == ""
      modifies this`controlClasses
      ensures ShortcodifyClass in trigger.classes && parsed.None? ==> sent == []
      ensures ShortcodifyClass !in trigger.classes || parsed.Some? ==>
        sent == RequestsSent(trigger, BuildPayload(trigger, html, (if parsed.Some? then parsed.value else []), author, controlsPostId, nonce), confirmed)
      ensures controlClasses == old(controlClasses) + {BeingSaved}
    {
      controlClasses := controlClasses + {BeingSaved};
      var content := html;
      if ShortcodifyClass in trigger.classes {
        if parsed.None? {
          sent := [];
          return;
        }
        content := Shortcode.Shortcodify(parsed.value);
      }
      var data := Payload(
        if PublishClass in trigger.classes then PublishAction else SaveAction,
        author, content, controlsPostId, nonce);
      sent := [];
      if PublishClass in trigger.classes {
        if confirmed {
          sent := [data];
        }
      } else {
        sent := [data];
      }
    }

    /** The server answered; `success` is the value of `true == response.success`. */
    method OnSaveResponse(request: Payload, success: bool)
      modifies this`store, this`dirtyByComponent, this`controlClasses
      ensures success ==> store == Step(session, old(store), SaveSucceeded(request.postId))
      ensures success ==> !dirtyByComponent && controlClasses == old(controlClasses) - {BeingSaved} + {SavedClass}
      ensures !success ==> store == Step(session, old(store), SaveRejected) && store == old(store)
      ensures !success ==> dirtyByComponent == old(dirtyByComponent)
      ensures !success ==> controlClasses == old(controlClasses) - {BeingSaved} + {ErrorClass}
    {
      if success {
        controlClasses := controlClasses - {BeingSaved} + {SavedClass};
        store := store - {BackupKey(request.postId)};
        dirtyByComponent := false;
      } else {
        controlClasses := controlClasses - {BeingSaved} + {ErrorClass};
      }
    }

    /** The request failed in transport. `title` is the text of the
        response's `<title>` element, or `None` when building the jQuery object
        from the response text throws (text not starting with `<` is taken as
        a selector, and an invalid one throws): the callback then stops before
        the alert and before any class changes. Returns the text of the alert,
        if one is shown. */
    method OnSaveFailed(status: int, exception: string, responseText: string, title: Option<string>)
      returns (alertText: Option<string>)
      modifies this`controlClasses
      ensures title.None? ==> alertText.None? && controlClasses == old(controlClasses)
      ensures title.Some? ==> alertText == Some(title.value + "\n" + FormatAjaxErrorMessage(status, exception, responseText))
      ensures title.Some? ==> controlClasses == old(controlClasses) - {BeingSaved} + {ErrorClass}
    {
      if title.None? {
        alertText := None;
        return;
      }
      alertText := Some(title.value + "\n" + FormatAjaxErrorMessage(status, exception, responseText));
      controlClasses := controlClasses - {BeingSaved} + {ErrorClass};
    }

    /** The timer set on success fires. */
    method OnSavedTimeout()
      modifies this`controlClasses
      ensures controlClasses == old(controlClasses) - {SavedClass}
    {
      controlClasses := controlClasses - {SavedClass};
    }
  }

  /** One editing session driven through the handlers: a real edit is backed
      up, the backup survives a rejected save and is removed by a successful
      save of the same post. Returns the store after the first two steps. */
  method EditRejectSave(e: Editor, html: string, request: Payload) returns (afterEdit: Store, afterReject: Store)
    requires html != e.session.loadedHtml && request.postId == e.session.postId
    modifies e
    ensures afterEdit == Run(e.session, old(e.store), [Change(html)])
    ensures afterReject == Run(e.session, old(e.store), [Change(html), SaveRejected])
    ensures e.store == Run(e.session, old(e.store), [Change(html), SaveRejected, SaveSucceeded(e.session.postId)])
    ensures BackupKey(e.session.postId) in afterEdit && afterEdit[BackupKey(e.session.postId)] == html
    ensures BackupKey(e.session.postId) in afterReject && afterReject[BackupKey(e.session.postId)] == html
    ensures BackupKey(e.session.postId) !in e.store
  {
    DraftGuard.EditRejectSaveTrace(e.session, e.store, html);
    assert [Change(html), SaveRejected, SaveSucceeded(e.session.postId)][..2] == [Change(html), SaveRejected];
    assert [Change(html), SaveRejected][..1] == [Change(html)];
    assert [Change(html)][..0] == [];
    e.OnChange(html);
    afterEdit := e.store;
    e.OnSaveResponse(request, false);
    afterReject := e.store;
    e.OnSaveResponse(request, true);
  }
}
