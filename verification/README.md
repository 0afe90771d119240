# Lasso front-end editor: save path, draft guard and server endpoints

A Dafny model of the core of Lasso, a WordPress plugin for editing posts on the
front end. The model covers:

- **The editor page** (`public/assets/js/source/process-save.js`):
  - the `shortcodify` serializer, which turns the parsed top-level nodes of the
    editable region into text, with `[aesop_<type> k="v" ...]` shortcodes for
    component elements (module `Shortcode`);
  - the save/publish payload, the publish confirmation gate and
    `EditusFormatAJAXErrorMessage` (module `SaveRequest`);
  - the draft backup kept in the browser's key/value store, first as a
    transition function over the store (module `DraftGuard`) and then as the
    handlers of an `Editor` object whose methods are proved against it (module
    `EditorPage`).
- **The gallery-save AJAX endpoint** `process_update_gallery`
  (`includes/class.process-component-save.php`). It is a `Site` object holding
  post meta, the action hooks fired and the JSON responses sent (module
  `GallerySave`). The PHP value rules it relies on (truthiness, `(int)` casts,
  `==` against a string literal, string conversion) are in module `Php`.
- **The main plugin class** (`public/includes/lasso.php`):
  - the shared instance, and activation and deactivation over the blogs of a
    network (module `Lasso`);
  - `get_aesop_component`, which collects request fields into attributes and
    dispatches on `code` (module `ComponentRouter`).

Each imperative handler is a method with a loop or state update. Its `ensures`
ties its result or new state to a specification function, and the lemmas beside
that function state what the source promises: the serializer's output is the
in-order concatenation of contributions, the parameters parse back, the backup
is only ever the editor's own key, a gallery save replaces wholesale and
touches nothing else, at most one renderer runs, and so on.

Some of what the code does is easy to miss. The model states it as the code does it:

- A node with class `aesop-component` but no `componentType` data entry
  contributes nothing to the serializer's output. It is dropped, not passed
  through as markup (`Shortcode.UntypedComponentsDropped`).
- The change handler writes the backup whether or not the user may edit. Only
  the unload handlers look at the edit right (`DraftGuard.EditThenLeave`).
- Unloading the page after a warning clears the whole key/value store, not
  only the post's backup (`EditorPage.Editor.OnUnload`).
- The `being-saved` class is added before the publish dialog opens. A
  cancelled publish sends nothing but still changes the controls
  (`EditorPage.Editor.OnSaveClick`).
- With jQuery before 3.0, `$.parseHTML('')` returns null. A shortcode save of
  an empty editor then throws in `shortcodify` after `being-saved` is set, and
  no request is sent (`EditorPage.Editor.OnSaveClick`).
- A successful save removes the backup of the post id read from the controls
  by the click handler. That is not necessarily the page's post id.
- The gallery endpoint writes a field only when its posted value is truthy, not
  merely present. It fires `aesop_editor_gallery_saved` and reports success
  even when nothing was written (`GallerySave.MetaAfterSave`,
  `GallerySave.Site.ProcessUpdateGallery`).
- The component router's attributes leave out `action` as well as `code`.

PHP comparisons follow PHP 8. `$code == '<literal>'` holds for a string
equal to the literal and for `true`, and never for `null`, `false`, an
integer or an array.

## Model

| member | source | states |
|---|---|---|
| `Shortcode.Shortcodify` | public/assets/js/source/process-save.js:142-204 | the loop's output equals `Serialize(nodes)`, the left-to-right concatenation of each node's contribution (text as is, comment wrapped in `<!--`/`-->`, plain element's outer HTML, component's shortcode, untyped component nothing) |
| `Shortcode.BuildParams` | public/assets/js/source/process-save.js:170-185 | the `for ... in data` loop produces ` key="value"` for every data entry except `componentType`, in order, values unescaped |
| `Shortcode.ComponentTagReadsBack` | public/assets/js/source/process-save.js:173-196 | a typed component's contribution starts with an opening tag that parses back to its type and its non-`componentType` entries in order; it is that tag alone without a content block, else the tag is followed by the first block's inner HTML and `[/aesop_<type>]` |
| `Shortcode.SerializeCons` | public/assets/js/source/process-save.js:146-202 | empty input gives the empty string; a node's contribution is prepended to the output of the rest |
| `Shortcode.SerializeAppend` | public/assets/js/source/process-save.js:149-200 | serializing a concatenation is the concatenation of the serializations |
| `Shortcode.UntypedComponentsDropped` | public/assets/js/source/process-save.js:169-198 | removing every component without `componentType` leaves the output unchanged: such nodes are dropped |
| `Shortcode.ParamsRoundTrip` | public/assets/js/source/process-save.js:175-185 | when the entries other than `componentType` have keys without `=` and values without `"`, the parameter string parses back to exactly those entries, in order |
| `Shortcode.OpenTagRoundTrip` | public/assets/js/source/process-save.js:187 | the opening tag parses back to its type and its parameter entries (type without space; `componentType` may hold anything, the other entries are safe) |
| `Shortcode.UnescapedQuoteCollision` | public/assets/js/source/process-save.js:183 | values are not escaped: two different attribute lists give the same opening tag |
| `SaveRequest.BuildPayload` | public/assets/js/source/process-save.js:105-111 | action is the publish action iff the trigger has `lasso-publish-post`, the save action otherwise; content is the serializer output iff `shortcodify-enabled`, the raw HTML otherwise; author, post id and nonce copied |
| `SaveRequest.RequestsSent` | public/assets/js/source/process-save.js:114-134 | at most one request, which is the payload; one is sent iff the trigger is not a publish trigger or the user confirmed |
| `SaveRequest.Classify` | public/assets/js/source/process-save.js:251-267 | status 0, 404 and 500 select their categories whatever the exception; otherwise `parsererror`, `timeout` and `abort` select theirs; every other case is the uncaught category carrying the response text (each direction stated) |
| `SaveRequest.FormatAjaxErrorMessage` | public/assets/js/source/process-save.js:251-267 | the message reads back as the category the status and exception select |
| `SaveRequest.MessageRoundTrip` | public/assets/js/source/process-save.js:251-267 | each failure category is recovered from its message, the uncaught one with its response text |
| `SaveRequest.MessagesDistinct` | public/assets/js/source/process-save.js:251-267 | two categories give the same message iff they are the same category |
| `SaveRequest.StatusDecidesFirst` | public/assets/js/source/process-save.js:252-257 | for status 0, 404 and 500 the message ignores exception and response text and is never the uncaught message |
| `SaveRequest.ExceptionDecidesOtherwise` | public/assets/js/source/process-save.js:258-266 | for any other status the message depends only on the exception, and is the uncaught prefix plus response text iff the exception is none of `parsererror`, `timeout`, `abort` |
| `DraftGuard.Step` | public/assets/js/source/process-save.js:18-244 | one handler writes no key but the post's backup and keeps every other value; an edit removes no key, and one back to the loaded HTML changes nothing; a rejected save or a transport failure leaves the store as it was; a successful save removes exactly the saved post's backup key; unload empties the whole store exactly when a backup is pending, and otherwise keeps it; a real edit is stored; a new or changed backup is always a change event's HTML differing from the loaded HTML |
| `DraftGuard.BackupKeyInjective` | public/assets/js/source/process-save.js:25 | distinct post ids have distinct backup keys |
| `DraftGuard.OnlyBackupWritten` | public/assets/js/source/process-save.js:18-46 | over any event sequence the only key written is this post's backup; every other key is kept or removed |
| `DraftGuard.BackupSurvives` | public/assets/js/source/process-save.js:231-244 | a backup stays until a successful save of this post or an unload; rejected saves and transport failures keep it |
| `DraftGuard.BackupIsAChange` | public/assets/js/source/process-save.js:7-27 | starting without a backup, any backup holds the HTML of some change event, and that HTML differs from the HTML captured at load |
| `DraftGuard.RevertKeepsStaleBackup` | public/assets/js/source/process-save.js:7 | the loaded HTML is never refreshed: editing and then reverting leaves the edit's backup in place |
| `DraftGuard.EditRejectSaveTrace` | public/assets/js/source/process-save.js:18-245 | after a real edit the backup holds it; after a rejected save it still does; after a successful save of the same post it is gone |
| `DraftGuard.EditThenLeave` | public/assets/js/source/process-save.js:18-46 | after a real non-empty edit, unloading clears the whole store for an editor and keeps the backup for a user without edit rights |
| `EditorPage.Editor.OnChange` | public/assets/js/source/process-save.js:18-28 | the store becomes `Step(Change(html))`: the backup holds `html` when it differs from the loaded HTML, else the store is unchanged |
| `EditorPage.Editor.OnBeforeUnload` | public/assets/js/source/process-save.js:33-39 | the warning is returned iff a non-empty backup exists and the user may edit |
| `EditorPage.Editor.OnUnload` | public/assets/js/source/process-save.js:42-46 | under the same condition the whole store is emptied; otherwise nothing changes |
| `EditorPage.Editor.OnSaveClick` | public/assets/js/source/process-save.js:98-134 | marks the controls `being-saved`; a shortcode trigger whose parse is null sends nothing; otherwise sends exactly `RequestsSent(trigger, BuildPayload(...), confirmed)`, running the serializer method for shortcode triggers |
| `EditorPage.Editor.OnSaveResponse` | public/assets/js/source/process-save.js:208-239 | success removes the backup of the request's post id, clears `dirtyByComponent` and shows saved; failure keeps the store and shows the error class |
| `EditorPage.Editor.OnSaveFailed` | public/assets/js/source/process-save.js:241-245 | when the response's title can be extracted, the alert is that title, a newline and the formatted AJAX error, and the controls show the error class; when the extraction throws, no alert is shown and the classes are unchanged |
| `EditorPage.Editor.OnSavedTimeout` | public/assets/js/source/process-save.js:221-228 | the saved class is removed again |
| `EditorPage.EditRejectSave` | public/assets/js/source/process-save.js:18-245 | driven through the handlers, the store after the edit and after the rejected save are those of `Run` and both hold the edit as backup; after the successful save the store is that of `Run` and the backup is gone |
| `Php.StringToInt` | includes/class.process-component-save.php:26 | `(int)` of a string is always a 64-bit integer |
| `Php.IntCastRoundTrip` | includes/class.process-component-save.php:26 | a post id written in decimal casts back to the same number |
| `GallerySave.Target` | includes/class.process-component-save.php:23-26 | the target is `false` without a settings array and an integer otherwise |
| `GallerySave.TargetOfDecimalId` | includes/class.process-component-save.php:23-26 | a settings array whose `id` is the decimal text of a post number up to `PHP_INT_MAX` targets exactly that post, and the meta is written to it |
| `GallerySave.MetaAfterSave` | includes/class.process-component-save.php:28-42 | truthy ids replace `_ase_gallery_images` of the post, a truthy type replaces `aesop_gallery_type`; falsy values leave them untouched; no other post or key changes; no post, no write |
| `GallerySave.SaveIdempotent` | includes/class.process-component-save.php:28-42 | the writes replace rather than merge: repeating a save changes nothing more |
| `GallerySave.Site.ProcessUpdateGallery` | includes/class.process-component-save.php:12-58 | wrong action: dies, nothing changes; no edit right: returns, nothing changes; bad nonce: one error response only; otherwise the meta becomes `MetaAfterSave`, the hook fires once with (post id, ids, user) and one success response follows |
| `Lasso.Registry.GetInstance` | public/includes/lasso.php:91-99 | creates a fresh instance only when none is stored, and always returns the stored one |
| `Lasso.GetInstanceTwice` | public/includes/lasso.php:91-99 | two calls return the same object |
| `Lasso.SingleActivate` | public/includes/lasso.php:223-239 | the version option becomes `LASSO_VERSION`; a truthy prior version is copied to `lasso_updated_from`, else that option is untouched; other options unchanged; the welcome transient is true for 30 seconds |
| `Lasso.UpgradeRecordsPriorVersion` | public/includes/lasso.php:225-233 | activating version v2 after v1 records v1 as the version upgraded from |
| `Lasso.ActivateAll` | public/includes/lasso.php:120-124 | activating a list of blogs keeps the set of blogs |
| `Lasso.ActivateAllDistinct` | public/includes/lasso.php:111-134 | over distinct blog ids each listed blog is activated exactly once and the others are untouched |
| `Lasso.Network.Targets` | public/includes/lasso.php:113-133 | the step runs on every listed blog iff the activation is network-wide on a multisite, else on the current blog only |
| `Lasso.Network.Activate` | public/includes/lasso.php:111-134 | runs on `Targets` in order and leaves the blogs as `ActivateAll` of them |
| `Lasso.Network.Deactivate` | public/includes/lasso.php:148-172 | runs on `Targets`; the per-blog step changes nothing |
| `ComponentRouter.ArraySet` | public/includes/lasso.php:274 | after `$atts[$key] = $value` the key reads back the value |
| `ComponentRouter.CollectIsFilter` | public/includes/lasso.php:268-276 | over a request array (unique keys) the `foreach` builds exactly the fields other than `code` and `action`, in order |
| `ComponentRouter.FilteredMembership` | public/includes/lasso.php:271-275 | an entry is an attribute iff it was posted under a key other than `code` and `action` |
| `ComponentRouter.FilteredIndex` | public/includes/lasso.php:274 | an attribute's value is the posted value, unchanged |
| `ComponentRouter.NamedLiteral` | public/includes/lasso.php:282-311 | each component's literal names that component |
| `ComponentRouter.LiteralInjective` | public/includes/lasso.php:282-311 | the seven literals are distinct |
| `ComponentRouter.HitNamed` | public/includes/lasso.php:282-314 | a branch echoes iff the code names its component |
| `ComponentRouter.AtMostOneRenderer` | public/includes/lasso.php:282-314 | for a code other than `true` at most one branch echoes; nothing is echoed iff the code names no component; a known code gets its own branch's output |
| `ComponentRouter.GalleryIgnoresOtherAttributes` | public/includes/lasso.php:311-314 | the gallery branch depends only on `id` and echoes `do_shortcode('[aesop_gallery id="<id>"]')` |
| `ComponentRouter.GalleryShortcodeIsOpenTag` | public/includes/lasso.php:313 | the gallery shortcode text is the opening tag the editor's serializer writes for a gallery whose only data entry is `id` |
| `ComponentRouter.GetAesopComponent` | public/includes/lasso.php:264-317 | the echoes before `exit` are `Dispatch` of the posted `code` over the collected attributes |
| `ComponentRouter.GatherAttributes` | public/includes/lasso.php:268-276 | the loop's attributes are `CollectAtts(post)` |
| `ComponentRouter.EchoComponent` | public/includes/lasso.php:282-314 | the chain of seven `if` statements echoes `Dispatch(code, atts)` |

## Left out

- The jQuery clean-up run before reading the HTML (unwrapping image, map and
  scroll-navigation wrappers, removing controls and notices). It rewrites the
  live document with selector semantics.
- `$.parseHTML` and jQuery `.data()`. The serializer takes the parsed node list,
  each element's data entries as ordered string pairs, and the inner HTML of
  its content blocks as inputs. Its output is therefore not related to the
  editor's HTML string: top-level text is written back with character
  references decoded, and element markup is the browser's re-serialization.
- The model assumes jQuery before 3.0 throughout. The serializer's node tests
  read `.context`, which jQuery 3.0 removed; under 3.x every text, comment or
  plain element node would throw there, which `Shortcode.Serialize` does not
  model. `EditorPage.Editor.OnSaveClick` takes the parser's result as an
  input, null only for the empty string, as `$.parseHTML` gives before 3.0.
- `EditorPage.Editor`: `controlClasses` is one set for all save controls.
  `being-saved` goes on the clicked control only, the saved and error classes
  on every control; the model does not tell the controls apart.
- The `$.post` transport, the `setTimeout` and `location.reload` timing, the
  `swal` dialog (modelled as the user's answer), and removal of the publish
  button. The `<title>` extraction from the failed response is an input: its text, or `None` when `$(xhr.responseText)` throws on an invalid selector (`EditorPage.Editor.OnSaveFailed`). Which texts jQuery's selector engine rejects is not modelled.
- `noWarningReload` and the unreachable `css` call after the `return` in the
  before-unload handler. Neither affects behaviour.
- `EditorPage.Editor.OnSaveResponse`: `true == response.success` is taken as a
  boolean input. JavaScript's loose equality on the response is not modelled.
- WordPress calls: `wp_verify_nonce`, `aesop_editor_user_can_edit`,
  `get_current_user_ID`, `do_action`, `wp_send_json_*`, `get_option`,
  `update_option`, `set_transient` and `do_shortcode`. They become parameters
  (a nonce predicate, an edit flag, a user id) or updates of abstract maps and
  logs. Hook listeners, the JSON bodies and the shortcode expansion are not modelled.
- `update_post_meta` is modelled as writing to the post numbered by the
  absolute value of its integer-cast argument, and doing nothing for post 0.
  Its database behaviour is otherwise not modelled.
- `GallerySave.Site.ProcessUpdateGallery`: `fields` is modelled only as
  absent or an array. A posted scalar `fields` (string offsets) is not
  modelled, and neither are PHP's notices for missing fields.
- `Php.StringToInt`: only leading white space, a sign and decimal digits
  are read. Fractions and exponents (`"1e3"`) are not, and out-of-range
  values saturate, as an approximation of PHP's float path.
- `get_blog_ids` (an SQL query), `switch_to_blog` and `restore_current_blog`.
  The blog ids are an input, and each blog's options are a separate map.
  `activate_new_site`, text domains, asset loading and hook registration are
  not part of this model.
- The external `aesop_*_shortcode` renderers and the `require_once` of their
  files. A rendered echo records the component and the attributes passed to it.
- `public/assets/js/aesop-editor.js` only forwards an opaque builder's output
  and alerts the response. It is not part of this model.
- PHP 7 comparison rules. Under them an integer `0` would equal every code
  literal, and the key `0` would equal `"code"`.
