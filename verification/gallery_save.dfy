/** The gallery-save AJAX endpoint, `process_update_gallery`
    (includes/class.process-component-save.php): checks the action, the edit
    right and the nonce, replaces the gallery's post meta, fires one action
    hook and sends one JSON response. */
module GallerySave {
  import opened Wrappers
  import opened Php

  const GalleryAction := "process_update_gallery"
  const NonceAction := "aesop-generator-settings"
  const ImagesKey := "_ase_gallery_images"
  const GalleryTypeKey := "aesop_gallery_type"
  const SavedHook := "aesop_editor_gallery_saved"

  /** The posted fields the endpoint reads; `Null` stands for a field that was
      not sent. `fields` is the posted settings array, when there is one. */
  datatype Request = Request(action: PhpValue, nonce: PhpValue,
                             fields: Option<seq<(string, PhpValue)>>, galleryIds: PhpValue)

  /** Post meta, keyed by post id and meta key. */
  type Meta = map<(nat, string), PhpValue>

  /** One `do_action` call. */
  datatype HookCall = HookCall(hook: string, postId: PhpValue, galleryIds: PhpValue, userId: int)

  datatype JsonResponse = JsonSuccess | JsonError

  /** How the handler ends: `return` (no output) or `die` (directly or inside
      the JSON response helpers). */
  datatype Exit = Returned | Died

  /** `$options = isset($_POST['fields']) ? $_POST['fields'] : false`. */
  function Options(req: Request): PhpValue {
    match req.fields
    case None => Bool(false)
    case Some(entries) => Arr(entries)
  }

  /** `$type`: the posted gallery type, or false without settings. */
  function GalleryType(req: Request): PhpValue {
    if Truthy(Options(req)) then Index(req.fields.value, "galleryType") else Bool(false)
  }

  /** `$postid = (int) $options['id']`, or false without settings. */
  function Target(req: Request): (t: PhpValue)
    ensures t == Bool(false) || t.Int?
    ensures t.Int? <==> req.fields.Some? && req.fields.value != []
  {
    if Truthy(Options(req)) then Int(ToInt(Index(req.fields.value, "id"))) else Bool(false)
  }

  /** A settings array whose `id` is a post number written in decimal targets
      that post, and the meta is written to it. */
  lemma TargetOfDecimalId(req: Request, n: nat)
    requires req.fields.Some? && req.fields.value != []
    requires Index(req.fields.value, "id") == Str(DecimalString(n))
    requires n <= MaxInt
    ensures Target(req) == Int(n) && MetaPost(Target(req)) == n
  {
    IntCastRoundTrip(n);
  }

  /** `$gallery_ids`: the posted ids, or false when none were sent. */
  function GalleryIds(req: Request): PhpValue {
    if req.galleryIds.Null? then Bool(false) else req.galleryIds
  }

  predicate IsGalleryRequest(req: Request) {
    !req.action.Null? && EqualsLiteral(req.action, GalleryAction)
  }

  /** The post id `update_post_meta` writes to: the absolute value of the
      argument cast to an integer; 0 means no post. */
  function MetaPost(v: PhpValue): nat {
    var n := ToInt(v);
    if n < 0 then -n else n
  }

  /** `update_post_meta($post, $key, $value)`: sets the value when the post
      argument names a post, and does nothing otherwise. */
  function UpdatePostMeta(meta: Meta, post: PhpValue, key: string, value: PhpValue): Meta {
    if MetaPost(post) == 0 then meta else meta[(MetaPost(post), key) := value]
  }

  /** The meta after the two guarded `update_post_meta` calls. */
  function MetaAfterSave(meta: Meta, req: Request): (m: Meta)
    ensures MetaPost(Target(req)) == 0 ==> m == meta
    ensures var id := MetaPost(Target(req));
      id != 0 && Truthy(GalleryIds(req)) ==> (id, ImagesKey) in m && m[(id, ImagesKey)] == GalleryIds(req)
    ensures var id := MetaPost(Target(req));
      id != 0 && Truthy(GalleryType(req)) ==> (id, GalleryTypeKey) in m && m[(id, GalleryTypeKey)] == GalleryType(req)
    ensures var id := MetaPost(Target(req));
      forall k :: !(k == (id, ImagesKey) && Truthy(GalleryIds(req))) &&
                  !(k == (id, GalleryTypeKey) && Truthy(GalleryType(req))) ==>
        (k in m <==> k in meta) && (k in m ==> m[k] == meta[k])
  {
    var withIds := if Truthy(GalleryIds(req)) then UpdatePostMeta(meta, Target(req), ImagesKey, GalleryIds(req)) else meta;
    if Truthy(GalleryType(req)) then UpdatePostMeta(withIds, Target(req), GalleryTypeKey, GalleryType(req)) else withIds
  }

  /** Replacing is not merging: sending the same request twice leaves the meta
      as sending it once. */
  lemma SaveIdempotent(meta: Meta, req: Request)
    ensures MetaAfterSave(MetaAfterSave(meta, req), req) == MetaAfterSave(meta, req)
  {
    var once := MetaAfterSave(meta, req);
    var twice := MetaAfterSave(once, req);
    forall k | k in twice ensures k in once && twice[k] == once[k] {
    }
    assert twice.Keys == once.Keys;
  }

  /** The endpoint's observable world: post meta, the action hooks fired and
      the JSON responses sent. */
  class Site {
    var meta: Meta
    var hooks: seq<HookCall>
    var responses: seq<JsonResponse>

    constructor (meta: Meta)
      ensures this.meta == meta && hooks == [] && responses == []
    {
      this.meta := meta;
      hooks := [];
      responses := [];
    }

    /** `process_update_gallery`. `userCanEdit` is the capability check,
        `verifyNonce` the nonce check and `userId` the current user. */
    method ProcessUpdateGallery(req: Request, userCanEdit: bool,
                                verifyNonce: (PhpValue, string) -> bool, userId: int)
      returns (exit: Exit)
      modifies this
      ensures !IsGalleryRequest(req) ==>
        exit == Died && meta == old(meta) && hooks == old(hooks) && responses == old(responses)
      ensures IsGalleryRequest(req) && !userCanEdit ==>
        exit == Returned && meta == old(meta) && hooks == old(hooks) && responses == old(responses)
      ensures IsGalleryRequest(req) && userCanEdit && !verifyNonce(req.nonce, NonceAction) ==>
        exit == Died && meta == old(meta) && hooks == old(hooks) && responses == old(responses) + [JsonError]
      ensures IsGalleryRequest(req) && userCanEdit && verifyNonce(req.nonce, NonceAction) ==>
        exit == Died && meta == MetaAfterSave(old(meta), req) &&
        hooks == old(hooks) + [HookCall(SavedHook, Target(req), GalleryIds(req), userId)] &&
        responses == old(responses) + [JsonSuccess]
    {
      if !req.action.Null? && EqualsLiteral(req.action, GalleryAction) {
        if !userCanEdit {
          return Returned;
        }
        if verifyNonce(req.nonce, NonceAction) {
          var options := Options(req);
          var galleryType := if Truthy(options) then Index(req.fields.value, "galleryType") else Bool(false);
          var postId := if Truthy(options) then Int(ToInt(Index(req.fields.value, "id"))) else Bool(false);
          var galleryIds := if !req.galleryIds.Null? then req.galleryIds else Bool(false);
          if Truthy(galleryIds) {
            meta := UpdatePostMeta(meta, postId, ImagesKey, galleryIds);
          }
          if Truthy(galleryType) {
            meta := UpdatePostMeta(meta, postId, GalleryTypeKey, galleryType);
          }
          hooks := hooks + [HookCall(SavedHook, postId, galleryIds, userId)];
          responses := responses + [JsonSuccess];
          return Died;
        } else {
          responses := responses + [JsonError];
          return Died;
        }
      }
      return Died;
    }
  }
}
