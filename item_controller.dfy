/**
 `ItemController`: request handling for the item catalogue. The table of
 items is the state of class `ItemStore`; each controller action is a method
 on it, proved against the pure decision `Decide` and the lemmas about it.
 */
module ItemController {
  import opened Foreign
  import ImageData

  const ValidationError := "Varidation Error"
  const MimeTypeError := "MIMEtype Error"

  /** A request field as PHP sees it after JSON decoding. */
  datatype Value = Absent | Null | Str(s: string) | Int(n: int) | Bool(b: bool) | Arr(count: nat)

  /** The body of a store or update request; `img` is the base64 text of the image. */
  datatype Request = Request(name: Value, description: Value, price: Value, img: Option<string>)

  /** A row of the item table (its id is the key it is stored under). */
  datatype Item = Item(name: string, description: string, price: int, mime: Option<string>, rawData: Option<seq<byte>>)

  /** The `raw_data` of an item on the wire: stored bytes, or their base64 text. */
  datatype Blob = Bytes(bytes: seq<byte>) | Base64(text: string)

  datatype ShownItem = ShownItem(id: nat, name: string, description: string, price: int, mime: Option<string>, rawData: Option<Blob>)

  /** One search hit: the `{id, name, price}` projection of an item. */
  datatype Row = Row(id: nat, name: string, price: int)

  datatype Payload = NoData | Text(text: string) | Found(item: ShownItem) | Rows(rows: seq<Row>)

  /**
   A JSON response with its status field, data and HTTP code, the 404 that
   route-model binding answers before the controller runs, or the 500 that
   Laravel answers for an exception the controller does not catch.
   */
  datatype Response = Json(status: string, data: Payload, code: int) | NotFound404 | ServerError500

  // ---------- Phase one: the scalar validation rules ----------

  datatype Rule = Required | IsString | Integer | Max(limit: int) | Min(limit: int)

  const NameRules: seq<Rule> := [Required, IsString, Max(100)]
  const DescriptionRules: seq<Rule> := [Required, IsString, Max(500)]
  const PriceRules: seq<Rule> := [Required, Integer, Min(0)]

  /** The characters PHP's `trim` removes. */
  predicate Trimmed(c: char)
  {
    c == ' ' || c == '\t' || c == '\n' || c == '\r' || c == '\0' || c == '\U{000B}'
  }

  predicate Blank(s: string)
  {
    forall i :: 0 <= i < |s| ==> Trimmed(s[i])
  }

  /** Laravel's `required`: not null, not a blank string, not an empty array. */
  predicate Present(v: Value)
  {
    match v
    case Absent => false
    case Null => false
    case Str(s) => !Blank(s)
    case Arr(count) => count > 0
    case _ => true
  }

  /** What `filter_var(…, FILTER_VALIDATE_INT)` makes of a field (`true` reads as "1"). */
  function IntegerValue(v: Value, env: Env): Option<int>
  {
    match v
    case Int(n) => Some(n)
    case Str(s) => env.filterInt(s)
    case Bool(b) => if b then Some(1) else None
    case _ => None
  }

  /** The number of characters in PHP's decimal text of `n`. */
  function DecimalLength(n: int): nat
    decreases if n < 0 then 1 - n else n
  {
    if n < 0 then 1 + DecimalLength(-n)
    else if n < 10 then 1
    else 1 + DecimalLength(n / 10)
  }

  /**
   The size `max` and `min` compare: the number itself for a numeric field of
   an attribute with a numeric rule, the element count of an array, and the
   character count of the value's text otherwise.
   */
  function Size(v: Value, numeric: bool, env: Env): int
  {
    match v
    case Int(n) => if numeric then n else DecimalLength(n)
    case Str(s) => if numeric && env.filterInt(s).Some? then env.filterInt(s).value else |s|
    case Bool(b) => if b then 1 else 0
    case Arr(count) => count
    case _ => 0
  }

  predicate Passes(rule: Rule, v: Value, numeric: bool, env: Env)
  {
    match rule
    case Required => Present(v)
    case IsString => v.Str?
    case Integer => IntegerValue(v, env).Some?
    case Max(limit) => Size(v, numeric, env) <= limit
    case Min(limit) => Size(v, numeric, env) >= limit
  }

  /** A field passes its rule list when it passes every rule in it. */
  predicate FieldPasses(rules: seq<Rule>, v: Value, env: Env)
  {
    forall i :: 0 <= i < |rules| ==> Passes(rules[i], v, Integer in rules, env)
  }

  /** A text field that is valid: a non-blank string of at most `maxLength` characters. */
  predicate TextFieldValid(v: Value, maxLength: nat)
  {
    v.Str? && !Blank(v.s) && |v.s| <= maxLength
  }

  /** A valid price: present, an integer, and not negative. */
  predicate PriceValid(v: Value, env: Env)
  {
    Present(v) && IntegerValue(v, env).Some? && IntegerValue(v, env).value >= 0
  }

  /** The three scalar fields, stated field by field. */
  predicate ScalarsValid(req: Request, env: Env)
  {
    TextFieldValid(req.name, 100) && TextFieldValid(req.description, 500) && PriceValid(req.price, env)
  }

  lemma TextRulesMeaning(rules: seq<Rule>, v: Value, maxLength: nat, env: Env)
    requires rules == [Required, IsString, Max(maxLength)]
    ensures FieldPasses(rules, v, env) <==> TextFieldValid(v, maxLength)
  {
    assert Integer !in rules;
    if FieldPasses(rules, v, env) {
      assert Passes(rules[0], v, false, env);
      assert Passes(rules[1], v, false, env);
      assert Passes(rules[2], v, false, env);
    }
  }

  lemma PriceRulesMeaning(v: Value, env: Env)
    ensures FieldPasses(PriceRules, v, env) <==> PriceValid(v, env)
  {
    assert Integer in PriceRules by { assert PriceRules[1] == Integer; }
    if FieldPasses(PriceRules, v, env) {
      assert Passes(PriceRules[0], v, true, env);
      assert Passes(PriceRules[1], v, true, env);
      assert Passes(PriceRules[2], v, true, env);
    }
  }

  /**
   `validation`: the rule lists of name, description and price; any failing
   rule gives the "Varidation Error" status, otherwise there is no response.
   */
  function Validation(req: Request, env: Env): (r: Option<string>)
    ensures r.None? <==> ScalarsValid(req, env)
    ensures r.Some? ==> r.value == ValidationError
  {
    TextRulesMeaning(NameRules, req.name, 100, env);
    TextRulesMeaning(DescriptionRules, req.description, 500, env);
    PriceRulesMeaning(req.price, env);
    if FieldPasses(NameRules, req.name, env)
       && FieldPasses(DescriptionRules, req.description, env)
       && FieldPasses(PriceRules, req.price, env)
    then None
    else Some(ValidationError)
  }

  // ---------- Phase two: the MIME allow-list ----------

  /** PHP's `$request->img == NULL`: absent, null or the empty string. */
  predicate ImgIsNull(img: Option<string>)
  {
    img.None? || img.value == ""
  }

  /** The content sniff of the decoded image names an allowed type. */
  predicate SniffAllowed(img: string, env: Env)
  {
    var sniffed := env.finfoBuffer(env.base64Decode(img));
    sniffed.Some? && sniffed.value in ImageData.AllowedMimes
  }

  /**
   `validationMimeType`: "MIMEtype Error" unless the sniffed type is allowed.
   The sniff is `getMimeType` (ImageData.php:12-17), which only opens a
   `finfo` handle, asks `finfo_buffer` and closes the handle again.
   */
  function ValidationMimeType(img: string, env: Env): (r: Option<string>)
    ensures r.None? <==> SniffAllowed(img, env)
    ensures r.Some? ==> r.value == MimeTypeError
  {
    var mime := env.finfoBuffer(env.base64Decode(img));
    if ImageData.CheckMimeType(mime) == Some(ImageData.Other) then Some(MimeTypeError) else None
  }

  /** What `getimagesize` reports for the data URI of `img`. */
  function ImageInfo(img: string, env: Env): Option<ImageSize>
  {
    env.getImageSize(ImageData.DataUri(img))
  }

  // ---------- The decision store and update share ----------

  /**
   A rejection with its status, the exception the image-info constructor
   raises, or the row to write.
   */
  datatype Decision = Rejected(status: string) | Raised | Accepted(item: Item)

  /**
   The outcome of the two ordered phases for a store or update request,
   followed by the image-info constructor for an accepted image. The stored
   mime is the "mime" entry of `getimagesize`, a second source independent of
   the content sniff that the gate uses.
   */
  function Decide(req: Request, env: Env): (d: Decision)
    ensures d.Rejected? ==> d.status == ValidationError || d.status == MimeTypeError
    ensures d == Rejected(ValidationError) <==> !ScalarsValid(req, env)
    ensures d == Rejected(MimeTypeError) <==>
              ScalarsValid(req, env) && !ImgIsNull(req.img) && !SniffAllowed(req.img.value, env)
    ensures d.Raised? <==>
              && ScalarsValid(req, env) && !ImgIsNull(req.img) && SniffAllowed(req.img.value, env)
              && !ImageData.ImageSizeReadable(ImageInfo(req.img.value, env))
    ensures d.Accepted? ==>
              && ScalarsValid(req, env)
              && d.item.name == req.name.s
              && d.item.description == req.description.s
              && d.item.price == IntegerValue(req.price, env).value
              && (d.item.mime.Some? <==> d.item.rawData.Some?)
    ensures d.Accepted? && ImgIsNull(req.img) ==> d.item.mime.None? && d.item.rawData.None?
    ensures d.Accepted? && !ImgIsNull(req.img) ==>
              && d.item.rawData == Some(env.base64Decode(req.img.value))
              && d.item.mime == Some(ImageInfo(req.img.value, env).value.mime)
  {
    if Validation(req, env).Some? then Rejected(ValidationError)
    else
      var item := Item(req.name.s, req.description.s, IntegerValue(req.price, env).value, None, None);
      if ImgIsNull(req.img) then Accepted(item)
      else if ValidationMimeType(req.img.value, env).Some? then Rejected(MimeTypeError)
      else
        var info := ImageInfo(req.img.value, env);
        if !ImageData.ImageSizeReadable(info) then Raised
        else Accepted(item.(mime := Some(info.value.mime), rawData := Some(env.base64Decode(req.img.value))))
  }

  /**
   Scalar validation runs first and short-circuits: when it fails, the image
   libraries are never consulted, so replacing every one of them changes nothing.
   */
  lemma ScalarPhaseShortCircuits(req: Request, env: Env, other: Env)
    requires !ScalarsValid(req, env)
    requires other.filterInt == env.filterInt
    ensures Decide(req, other) == Decide(req, env) == Rejected(ValidationError)
  {
  }

  /** Without an image the MIME phase does not run: the image libraries do not matter. */
  lemma NoImageSkipsMimePhase(req: Request, env: Env, other: Env)
    requires ImgIsNull(req.img)
    requires other.filterInt == env.filterInt
    ensures Decide(req, other) == Decide(req, env)
    ensures !Decide(req, env).Accepted? ==> Decide(req, env) == Rejected(ValidationError)
  {
  }

  /**
   Passing both gates does not guarantee a write: a sniff that allows the
   image while `getimagesize` fails (a truncated PNG, say) ends in the
   constructor's exception.
   */
  lemma AllowedImageMayStillRaise()
    ensures exists req: Request, env: Env ::
              && ScalarsValid(req, env)
              && !ImgIsNull(req.img)
              && SniffAllowed(req.img.value, env)
              && Decide(req, env).Raised?
  {
    var env := Env(s => [], b => "", b => Some("image/png"), u => None, (d, u) => None, s => None);
    var req := Request(Str("Mug"), Str("Ceramic mug"), Int(500), Some("iVBORw0K"));
    assert !Trimmed(req.name.s[0]) && !Trimmed(req.description.s[0]);
    assert "image/png" in ImageData.AllowedMimes;
    assert Decide(req, env).Raised?;
  }

  /** The stored mime may name another type than the one the sniff allowed. */
  lemma StoredMimeMayDifferFromSniff()
    ensures exists req: Request, env: Env ::
              && Decide(req, env).Accepted?
              && Decide(req, env).item.mime.Some?
              && Some(Decide(req, env).item.mime.value) != env.finfoBuffer(env.base64Decode(req.img.value))
  {
    var env := Env(s => [], b => "",
                   b => Some("image/png"),
                   u => Some(ImageSize(1, 1, 1, Some(8), "image/gif")),
                   (d, u) => None, s => None);
    var req := Request(Str("Mug"), Str("Ceramic mug"), Int(500), Some("R0lGODlh"));
    assert !Trimmed(req.name.s[0]) && !Trimmed(req.description.s[0]);
    assert Decide(req, env).Accepted?;
  }

  // ---------- show: the wire form of an item ----------

  /** PHP's `$item->raw_data != NULL && $item->mime != NULL` (the empty string counts as null). */
  predicate HasImage(item: Item)
  {
    item.rawData.Some? && item.rawData.value != [] && item.mime.Some? && item.mime.value != ""
  }

  /** The item `show` returns: `raw_data` base64-encoded only when both image fields are set. */
  function Displayed(id: nat, item: Item, env: Env): (s: ShownItem)
    ensures s.id == id && s.name == item.name && s.description == item.description
    ensures s.price == item.price && s.mime == item.mime
    ensures s.rawData.None? <==> item.rawData.None?
    ensures s.rawData.Some? ==> (s.rawData.value.Base64? <==> HasImage(item))
    ensures HasImage(item) ==> s.rawData == Some(Base64(env.base64Encode(item.rawData.value)))
    ensures !HasImage(item) && item.rawData.Some? ==> s.rawData == Some(Bytes(item.rawData.value))
  {
    var raw :=
      if HasImage(item) then Some(Base64(env.base64Encode(item.rawData.value)))
      else if item.rawData.Some? then Some(Bytes(item.rawData.value))
      else None;
    ShownItem(id, item.name, item.description, item.price, item.mime, raw)
  }

  /** A client's reading of a shown item: base64 text decoded back to bytes. */
  function Restore(s: ShownItem, env: Env): Item
  {
    var raw :=
      match s.rawData
      case None => None
      case Some(Bytes(b)) => Some(b)
      case Some(Base64(t)) => Some(env.base64Decode(t));
    Item(s.name, s.description, s.price, s.mime, raw)
  }

  /** Base64 decoding undoes encoding (section 4 of RFC 4648). */
  ghost predicate Base64RoundTrips(env: Env)
  {
    forall b :: env.base64Decode(env.base64Encode(b)) == b
  }

  /** What `show` sends gives back the stored row exactly, image bytes included. */
  lemma DisplayedRoundTrip(id: nat, item: Item, env: Env)
    requires Base64RoundTrips(env)
    ensures Restore(Displayed(id, item, env), env) == item
  {
  }

  // ---------- search: substring match and storage order ----------

  /** SQL `name LIKE '%keyword%'`, read as plain substring containment. */
  predicate Contains(name: string, keyword: string)
  {
    exists i | 0 <= i <= |name| :: OccursAt(name, keyword, i)
  }

  predicate OccursAt(name: string, keyword: string, i: int)
  {
    0 <= i && i + |keyword| <= |name| && name[i..i + |keyword|] == keyword
  }

  lemma ConsIncreasing(x: nat, r: seq<nat>)
    requires Increasing(r) && forall y :: y in r ==> x < y
    ensures Increasing([x] + r)
  {
    forall i, j | 0 <= i < j < |[x] + r|
      ensures ([x] + r)[i] < ([x] + r)[j]
    {
      assert ([x] + r)[j] == r[j - 1] && r[j - 1] in r;
      if i > 0 {
        assert ([x] + r)[i] == r[i - 1];
      }
    }
  }

  lemma SnocIncreasing(s: seq<nat>, x: nat)
    requires Increasing(s) && forall y :: y in s ==> y < x
    ensures Increasing(s + [x])
  {
    forall i, j | 0 <= i < j < |s + [x]|
      ensures (s + [x])[i] < (s + [x])[j]
    {
      assert (s + [x])[i] == s[i] && s[i] in s;
      if j < |s| {
        assert (s + [x])[j] == s[j];
      }
    }
  }

  /** In an increasing sequence the head is below every later element. */
  lemma HeadBelowTail(s: seq<nat>)
    requires |s| > 0 && Increasing(s)
    ensures forall y :: y in s[1..] ==> s[0] < y
  {
  }

  predicate Increasing(s: seq<nat>)
  {
    forall i, j :: 0 <= i < j < |s| ==> s[i] < s[j]
  }

  /** The ids of `s`, in order, whose item's name contains `keyword`. */
  function Filter(s: seq<nat>, rows: map<nat, Item>, keyword: string): (r: seq<nat>)
    requires forall x :: x in s ==> x in rows
    ensures forall x :: x in r <==> x in s && Contains(rows[x].name, keyword)
    ensures |r| <= |s|
    ensures Increasing(s) ==> Increasing(r)
  {
    if s == [] then []
    else
      var rest := Filter(s[1..], rows, keyword);
      assert forall x :: x in s[1..] ==> x in s;
      if Contains(rows[s[0]].name, keyword) then
        if Increasing(s) then HeadBelowTail(s); ConsIncreasing(s[0], rest); [s[0]] + rest else [s[0]] + rest
      else rest
  }

  /** `s` without `x`, order kept. */
  function Without(s: seq<nat>, x: nat): (r: seq<nat>)
    ensures forall y :: y in r <==> y in s && y != x
    ensures Increasing(s) ==> Increasing(r)
  {
    if s == [] then []
    else
      var rest := Without(s[1..], x);
      assert forall y :: y in s[1..] ==> y in s;
      if s[0] == x then rest
      else if Increasing(s) then HeadBelowTail(s); ConsIncreasing(s[0], rest); [s[0]] + rest
      else [s[0]] + rest
  }

  // ---------- The table and the controller actions ----------

  /**
   The item table. `rows` maps each id to its row; `ids` lists the ids in
   storage order, which is increasing because ids are assigned by an
   auto-increment counter `nextId`.
   */
  class ItemStore {
    var rows: map<nat, Item>
    var ids: seq<nat>
    var nextId: nat

    ghost predicate Valid()
      reads this
    {
      && Increasing(ids)
      && (forall id :: id in rows <==> id in ids)
      && (forall id :: id in ids ==> id < nextId)
    }

    constructor ()
      ensures Valid() && rows == map[] && ids == [] && nextId == 1
    {
      rows := map[];
      ids := [];
      nextId := 1;
    }

    /** The auto-increment insert that `save()` performs on a new item. */
    method Insert(item: Item) returns (id: nat)
      requires Valid()
      modifies this
      ensures Valid()
      ensures id == old(nextId) && id !in old(rows)
      ensures rows == old(rows)[id := item] && ids == old(ids) + [id] && nextId == old(nextId) + 1
    {
      id := nextId;
      SnocIncreasing(ids, id);
      rows := rows[id := item];
      ids := ids + [id];
      nextId := nextId + 1;
    }

    /**
     `store`: validate the scalars, then (only with an image) the sniffed
     MIME type; only a request that passes both, and whose image info can be
     read, writes a new row.
     */
    method Store(req: Request, env: Env) returns (resp: Response)
      requires Valid()
      modifies this
      ensures Valid()
      ensures !Decide(req, env).Accepted? ==> rows == old(rows) && ids == old(ids) && nextId == old(nextId)
      ensures Decide(req, env).Rejected? ==> resp == Json(Decide(req, env).status, NoData, 200)
      ensures Decide(req, env).Raised? ==> resp == ServerError500
      ensures Decide(req, env).Accepted? ==>
                && resp == Json("create", Text(Decide(req, env).item.name), 201)
                && old(nextId) !in old(rows)
                && rows == old(rows)[old(nextId) := Decide(req, env).item]
                && ids == old(ids) + [old(nextId)]
                && nextId == old(nextId) + 1
    {
      var failure := Validation(req, env);
      if failure.Some? {
        return Json(failure.value, NoData, 200);
      }
      var item := Item(req.name.s, req.description.s, IntegerValue(req.price, env).value, None, None);
      if ImgIsNull(req.img) {
        var _ := Insert(item);
        return Json("create", Text(item.name), 201);
      }
      failure := ValidationMimeType(req.img.value, env);
      if failure.Some? {
        return Json(failure.value, NoData, 200);
      }
      var imgInfo := ImageData.ImageDataBase64.New(env, req.img.value);
      if imgInfo == null {
        return ServerError500;
      }
      item := item.(mime := Some(imgInfo.GetMime()), rawData := Some(env.base64Decode(req.img.value)));
      var _ := Insert(item);
      resp := Json("create", Text(item.name), 201);
    }

    /** `show`: the stored item, with its image bytes base64-encoded when both image fields are set. */
    method Show(id: nat, env: Env) returns (resp: Response)
      ensures id !in rows ==> resp == NotFound404
      ensures id in rows ==> resp == Json("FOUND", Found(Displayed(id, rows[id], env)), 200)
    {
      if id !in rows {
        return NotFound404;
      }
      var item := rows[id];
      var raw: Option<Blob> := if item.rawData.Some? then Some(Bytes(item.rawData.value)) else None;
      if HasImage(item) {
        raw := Some(Base64(env.base64Encode(item.rawData.value)));
      }
      resp := Json("FOUND", Found(ShownItem(id, item.name, item.description, item.price, item.mime, raw)), 200);
    }

    /**
     `update`: the same two phases as `store`, writing over the row `id`;
     without an image both image fields become null. A MIME failure, or the
     image-info constructor's exception, comes after the fields were assigned
     in memory but before `save()`, so the table keeps the old row.
     */
    method Update(id: nat, req: Request, env: Env) returns (resp: Response)
      requires Valid()
      modifies this
      ensures Valid() && ids == old(ids) && nextId == old(nextId)
      ensures id !in old(rows) ==> resp == NotFound404 && rows == old(rows)
      ensures id in old(rows) && !Decide(req, env).Accepted? ==> rows == old(rows)
      ensures id in old(rows) && Decide(req, env).Rejected? ==> resp == Json(Decide(req, env).status, NoData, 200)
      ensures id in old(rows) && Decide(req, env).Raised? ==> resp == ServerError500
      ensures id in old(rows) && Decide(req, env).Accepted? ==>
                && resp == Json("update", Text(Decide(req, env).item.name), 200)
                && rows == old(rows)[id := Decide(req, env).item]
    {
      if id !in rows {
        return NotFound404;
      }
      var item := rows[id];
      var failure := Validation(req, env);
      if failure.Some? {
        return Json(failure.value, NoData, 200);
      }
      item := item.(name := req.name.s, description := req.description.s, price := IntegerValue(req.price, env).value);
      if ImgIsNull(req.img) {
        item := item.(mime := None, rawData := None);
        rows := rows[id := item];
        return Json("update", Text(item.name), 200);
      }
      failure := ValidationMimeType(req.img.value, env);
      if failure.Some? {
        return Json(failure.value, NoData, 200);
      }
      var imgInfo := ImageData.ImageDataBase64.New(env, req.img.value);
      if imgInfo == null {
        return ServerError500;
      }
      item := item.(mime := Some(imgInfo.GetMime()), rawData := Some(env.base64Decode(req.img.value)));
      rows := rows[id := item];
      resp := Json("update", Text(item.name), 200);
    }

    /** `destroy`: delete the row and answer with the deleted item's name. */
    method Destroy(id: nat) returns (resp: Response)
      requires Valid()
      modifies this
      ensures Valid() && nextId == old(nextId)
      ensures id !in old(rows) ==> resp == NotFound404 && rows == old(rows) && ids == old(ids)
      ensures id in old(rows) ==>
                && resp == Json("delete", Text(old(rows)[id].name), 200)
                && rows == old(rows) - {id}
                && ids == Without(old(ids), id)
                && id !in rows
    {
      if id !in rows {
        return NotFound404;
      }
      var item := rows[id];
      rows := rows - {id};
      ids := Without(ids, id);
      resp := Json("delete", Text(item.name), 200);
    }

    /** The query `name LIKE '%keyword%'`: matching ids, in storage order. */
    function Query(keyword: string): (found: seq<nat>)
      reads this
      requires Valid()
      ensures forall id :: id in found <==> id in rows && Contains(rows[id].name, keyword)
      ensures Increasing(found)
    {
      Filter(ids, rows, keyword)
    }

    /**
     `search`: NOT-FOUND without data when nothing matches, otherwise FOUND
     with the `{id, name, price}` projection of each match, in query order.
     */
    method Search(keyword: string) returns (resp: Response)
      requires Valid()
      ensures Query(keyword) == [] ==> resp == Json("NOT-FOUND", NoData, 200)
      ensures Query(keyword) != [] ==>
                && resp.Json? && resp.status == "FOUND" && resp.code == 200 && resp.data.Rows?
                && |resp.data.rows| == |Query(keyword)|
                && forall k :: 0 <= k < |resp.data.rows| ==>
                     resp.data.rows[k] == Row(Query(keyword)[k], rows[Query(keyword)[k]].name, rows[Query(keyword)[k]].price)
    {
      var items := Query(keyword);
      if |items| == 0 {
        return Json("NOT-FOUND", NoData, 200);
      }
      var data: seq<Row> := [];
      var i := 0;
      while i < |items|
        invariant 0 <= i <= |items|
        invariant |data| == i
        invariant forall k :: 0 <= k < i ==> data[k] == Row(items[k], rows[items[k]].name, rows[items[k]].price)
      {
        var item := rows[items[i]];
        data := data + [Row(items[i], item.name, item.price)];
        i := i + 1;
      }
      resp := Json("FOUND", Rows(data), 200);
    }
  }
}
