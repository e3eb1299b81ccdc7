# Item catalogue controller — a Dafny model

This project models the request handling of a small Laravel catalogue
service. The service stores items, each with a name, a description, a price
and an optional embedded image. `ItemController` validates a store or update
request in two ordered phases:

- the scalar rules for `name`, `description` and `price`;
- then, only when an image is sent, a MIME allow-list check on the content
  sniff of the decoded bytes.

A row is written only when both phases pass. `show` re-encodes stored image
bytes as base64. `search` answers with the `{id, name, price}` projection of
every item whose name contains the keyword. `App\ImageDataInfo` provides the
allow-list check `checkMimeType` and the `ImageDataBase64` wrapper, which reads
an image's size, type and MIME type through `getimagesize` and picks the GD
decoder for its type in `makeOriginal`.

Files:

- `foreign.dfy` (module `Foreign`): bytes, `Option`, and the record `Env` of
  PHP built-ins: `base64_decode`, `base64_encode`, `finfo_buffer`,
  `getimagesize`, the `imagecreatefrom*` decoders and `filter_var(…,
  FILTER_VALIDATE_INT)`. Each is a function value passed in as a parameter,
  so the model assumes nothing about them.
- `image_data.dfy` (module `ImageData`): `checkMimeType` and the class
  `ImageDataBase64`; `getMimeType` is folded into `validationMimeType`. Its fields are `const`: the constructor writes
  them once from `getimagesize` and nothing can write them again.
- `item_controller.dfy` (module `ItemController`):
  - the validation rules, stated both rule by rule and as plain conditions;
  - `validationMimeType`;
  - the shared decision `Decide`;
  - the class `ItemStore`, which holds the item table: a map from id to row,
    the ids in storage order, and the auto-increment counter. Its methods
    `Store`, `Show`, `Update`, `Destroy` and `Search` are the controller
    actions.

Points where the code behaves differently from what one might expect:

- One might expect `mime` and `raw_data` to be set together, and the MIME type
  that is stored to be the one that was checked. The allow-list gate reads the
  `finfo` sniff of the decoded bytes (ItemController.php:242). The stored mime
  comes from `getimagesize` on the data URI (ItemController.php:62,
  ImageData.php:70-75). So a row can be stored with a mime other than the one
  the sniff allowed (`StoredMimeMayDifferFromSniff`).
- The image-info constructor reads `getimagesize`'s answer without checking
  it (ImageData.php:71-75). When `getimagesize` answers `false`, or answers an
  array without a "bits" entry, PHP 8 warns, and Laravel's error handler turns
  the warning into an exception. The request then ends in a 500 and nothing is
  saved, even though both validation phases passed (`AllowedImageMayStillRaise`).
  As a result every stored row has `mime` and `raw_data` both set or both
  null (`Decide`).
- ImageData.php:57 comments `_ch` as a channel count. `getCh` returns index 2
  of the `getimagesize` array, which is the IMAGETYPE constant. The model
  returns that value.
- Loose PHP comparisons are modelled as the code makes them:
  - `$request->img == NULL` holds for a missing, null or empty `img`;
  - in `show`, an empty `raw_data` or an empty `mime` counts as null.
- Validation errors and MIME errors answer with HTTP 200, as the code does.
  The route-model binding's 404 for an unknown id is the separate response
  `NotFound404`; an uncaught exception is `ServerError500`.

The model follows PHP 8 semantics for warnings, `is_numeric` and
`filter_var`.

## Model

| member | source | states |
|---|---|---|
| `ImageData.CheckMimeType` | app/ImageDataInfo/ImageData.php:26-45 | returns nothing exactly when the mime is one of image/gif, image/jpeg, image/bmp, image/png; otherwise returns 'Other' (this includes the sniffer's `false`) |
| `ImageData.DecodersCoverAllowList` | app/ImageDataInfo/ImageData.php:122-139 | the four GD decoders correspond one to one with the allow-list: a type is allowed iff some decoder is chosen for it, and no two decoders share a type |
| `ImageData.ImageDataBase64.New` | app/ImageDataInfo/ImageData.php:67-76 | `new ImageDataBase64($img)` raises exactly when `getimagesize` on the data URI answers `false` or an array without "bits"; otherwise it gives a fresh object whose fields hold the matching entries |
| `ImageData.ImageDataBase64.constructor` | app/ImageDataInfo/ImageData.php:69-75 | on the path where the reads do not raise: keeps the base64 text unchanged and sets each field to the matching `getimagesize` entry |
| `ImageData.ImageDataBase64.GetWidth` | app/ImageDataInfo/ImageData.php:80-82 | returns the width `getimagesize` reported at construction |
| `ImageData.ImageDataBase64.GetHeight` | app/ImageDataInfo/ImageData.php:84-86 | returns the height `getimagesize` reported at construction |
| `ImageData.ImageDataBase64.GetCh` | app/ImageDataInfo/ImageData.php:88-90 | returns index 2 of the `getimagesize` array recorded at construction |
| `ImageData.ImageDataBase64.GetBits` | app/ImageDataInfo/ImageData.php:92-94 | returns the "bits" entry recorded at construction |
| `ImageData.ImageDataBase64.GetMime` | app/ImageDataInfo/ImageData.php:96-98 | returns the "mime" entry recorded at construction |
| `ImageData.ImageDataBase64.CheckMimeType` | app/ImageDataInfo/ImageData.php:108-110 | discards the free function's answer: returns nothing and leaves the object unchanged, whatever the mime |
| `ImageData.ImageDataBase64.MakeOriginal` | app/ImageDataInfo/ImageData.php:120-144 | raises exactly when `checkMimeType` answers 'Other' for the recorded mime; for each allowed mime, returns what that type's GD decoder makes of the data URI |
| `ItemController.TextRulesMeaning` | app/Http/Controllers/ItemController.php:215-216 | the rule list `required`, `string`, `max:N` passes exactly for a non-blank string of at most N characters |
| `ItemController.PriceRulesMeaning` | app/Http/Controllers/ItemController.php:217 | the rule list `required`, `integer`, `min:0` passes exactly for a present value that reads as an integer that is at least 0 |
| `ItemController.Validation` | app/Http/Controllers/ItemController.php:211-228 | no response exactly when name is a non-blank string of at most 100 characters, description one of at most 500, and price an integer ≥ 0; otherwise "Varidation Error" |
| `ItemController.ValidationMimeType` | app/Http/Controllers/ItemController.php:239-248 | no response exactly when the content sniff (`getMimeType`, ImageData.php:12-17) of the decoded image names an allowed type; otherwise "MIMEtype Error" |
| `ItemController.ImgIsNull` | app/Http/Controllers/ItemController.php:45 | PHP's `$request->img == NULL`: true for a missing, null or empty `img` (also used at line 115) |
| `ItemController.Decide` | app/Http/Controllers/ItemController.php:34-72 | rejects with "Varidation Error" iff the scalars are invalid, and with "MIMEtype Error" iff they are valid and an image whose sniff is not allowed is sent. It raises iff both phases pass with an image and `getimagesize` cannot be read in full. An accepted row carries exactly the request's name, description and price, and has mime set iff raw_data is set. Without an image both are null; with one, raw_data is the decoded bytes and mime is the `getimagesize` mime |
| `ItemController.ScalarPhaseShortCircuits` | app/Http/Controllers/ItemController.php:34-36 | when scalar validation fails, the result is "Varidation Error" whatever the sniffer, decoder and image libraries do: the MIME phase is never reached |
| `ItemController.NoImageSkipsMimePhase` | app/Http/Controllers/ItemController.php:45-51 | without an image the outcome does not depend on the image libraries, and the only possible rejection is "Varidation Error" |
| `ItemController.AllowedImageMayStillRaise` | app/Http/Controllers/ItemController.php:59-63 | some request whose scalars are valid and whose sniff is allowed still ends in the image-info constructor's exception (`getimagesize` fails) |
| `ItemController.StoredMimeMayDifferFromSniff` | app/Http/Controllers/ItemController.php:62 | some accepted request stores a mime that differs from the sniffed type that passed the gate |
| `ItemController.HasImage` | app/Http/Controllers/ItemController.php:84 | PHP's `raw_data != NULL && mime != NULL`: both present and neither empty |
| `ItemController.Displayed` | app/Http/Controllers/ItemController.php:84-87 | the shown item keeps id, name, description, price and mime. When both image fields are non-null its raw_data is `base64_encode` of the stored bytes; otherwise it is the stored raw_data unchanged (absent if none) |
| `ItemController.DisplayedRoundTrip` | app/Http/Controllers/ItemController.php:86 | when base64 decoding undoes encoding, decoding what `show` sends gives back the stored row exactly |
| `ItemController.Filter` | app/Http/Controllers/ItemController.php:178 | keeps exactly the ids whose item name contains the keyword, never more than given, in the given increasing order |
| `ItemController.Without` | app/Http/Controllers/ItemController.php:160 | removes exactly the deleted id and keeps the order of the rest |
| `ItemController.ItemStore.Insert` | app/Http/Controllers/ItemController.php:46 | `save()` of a new item: the row is added under the next auto-increment id, which was unused, and appended to the storage order |
| `ItemController.ItemStore.Store` | app/Http/Controllers/ItemController.php:31-73 | a rejected request answers its status with code 200, a raising one answers 500; both leave the table unchanged. An accepted one inserts the decided row under a fresh id and answers "create" with the name and code 201 |
| `ItemController.ItemStore.Show` | app/Http/Controllers/ItemController.php:81-93 | unknown id: 404; otherwise "FOUND", code 200, with the displayed form of the stored row |
| `ItemController.ItemStore.Update` | app/Http/Controllers/ItemController.php:102-149 | unknown id: 404, nothing changes. Rejected: its status with code 200; raising: 500; in both the row is unchanged even after the in-memory assignment. Accepted: the row becomes the decided row (image fields null when no image is sent), "update" with the name, code 200 |
| `ItemController.ItemStore.Destroy` | app/Http/Controllers/ItemController.php:157-167 | unknown id: 404; otherwise the row and its id are removed, so a later `Show` answers 404; answers "delete" with the deleted item's name |
| `ItemController.ItemStore.Query` | app/Http/Controllers/ItemController.php:178 | an id is returned iff its row's name contains the keyword; the ids come in increasing storage order |
| `ItemController.ItemStore.Search` | app/Http/Controllers/ItemController.php:175-200 | "NOT-FOUND" with no data when nothing matches; otherwise "FOUND" with exactly one `{id, name, price}` row per match, in query order |

## Left out

- `index()` (ItemController.php:20-23) is left out. It only passes `Item::all()` through and has no logic of its own.
- `reSize` (ImageData.php:156-181) is left out. It is unfinished: it reads variables that are never defined, and its work is GD raster operations.
- The internals of `finfo_buffer`, `getimagesize`, base64 encoding and decoding, the GD decoders and `filter_var` are left out. They are PHP built-ins, so each is an unconstrained function value in `Env`. `DisplayedRoundTrip` assumes only that decoding undoes encoding.
- The opening and closing of the `finfo` handle in `getMimeType` is left out. It is resource handling with no effect on the result.
- Laravel's `Validator` engine is not modelled; only its rule semantics are. Skipping non-required rules for absent fields is not modelled, because every field is `required` and so the verdict is the same. For a string price, `is_numeric` in the size check is read as `filter_var` succeeding. Under PHP 8 every string `filter_var` accepts as an integer is also numeric, so the reading differs only when the `integer` rule fails anyway.
- `ItemController.Validation`: PHP 7's `is_numeric` is not modelled. It rejects trailing whitespace that `filter_var` accepts, so under PHP 7 the price `"-5 "` is sized by its length (3), passes `min:0` and is accepted; the model, following PHP 8, rejects it.
- `ItemController.Validation`: a JSON number with a fraction part is not modelled, because `Value` has no float case. PHP decodes `5.0` to a float, which `filter_var` reads as 5, so the source accepts that price.
- `ItemController.Validation`: PHP's 64-bit integer width is not modelled; `Int` is unbounded. A JSON integer beyond `PHP_INT_MAX` decodes to a float and fails the `integer` rule, while the model accepts it.
- `ImageData.ImageDataBase64.New`: PHP 7.3 and earlier are not modelled. There, reading index 0 of `false` is silent and yields null, so a failed `getimagesize` would store the image bytes with a null mime instead of raising.
- `ItemController.ItemStore.Show`: the JSON encoding of the response is not modelled. When the stored bytes are shown unencoded (both image fields are not set) and are not valid UTF-8, Laravel's JSON response throws; the model answers FOUND.
- Eloquent is not modelled beyond the table state. `save`, `delete` and the query become updates of a map and of the id order. Timestamps are not modelled. A price string is stored as the integer it reads as.
- Search results come in storage order, which is increasing id order. The real query has no ORDER BY, so its order is whatever the database returns.
- Substring matching: SQL `LIKE '%keyword%'` is modelled as plain substring containment. The wildcard meaning of `%` and `_` in the keyword is not modelled. Case sensitivity is not modelled either, because it depends on the database collation.
- `Request.img` is a string or absent. PHP's coercion of a number, boolean or array sent as `img` is not modelled, because the API sends the image as base64 text.
- `ImageData.ImageDataBase64.MakeOriginal` only says that it raises, not which error. The source constructs an unqualified `RuntimeException` inside a namespace and passes a string as the exception code, so PHP raises an error in any case.
- JSON encoding and HTTP transport are left out. Responses are modelled as a status, a data payload and a code.
- Concurrent requests are left out. Each action runs alone on the table.
