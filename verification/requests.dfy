/** Form-request validation for chat messages and item listings. Both
    requests authorise every caller, so validation only ever accepts or
    rejects the input; who may act is decided by the controllers. */
module Requests {
  import opened Domain

  // ---------------------------------------------------------------------------
  // Uploaded files

  datatype FileKind = Png | Jpeg | OtherImage | NotImage

  /** An uploaded file: its detected kind and its size in bytes. */
  datatype Upload = Upload(kind: FileKind, sizeBytes: nat)

  // ---------------------------------------------------------------------------
  // MessageRequest

  datatype HttpMethod = Post | Put | Patch

  const MaxBodyLength: nat := 400
  /** `max:2048` on a file bounds its size in kilobytes, measured as the
      fraction bytes / 1024, so the bound in bytes is exact. */
  const MaxImageKb: nat := 2048
  const MaxImageBytes: nat := MaxImageKb * 1024

  datatype MessageRule = BodyRequired | BodyTooLong | ImageNotImage | ImageWrongType | ImageTooLarge

  /** `required|string|max:400`: a missing or blank body fails only
      `required`; otherwise it fails `max` beyond 400 characters. */
  function BodyErrors(body: Option<string>): set<MessageRule> {
    if body.None? || IsBlank(body.value) then {BodyRequired}
    else if |body.value| > MaxBodyLength then {BodyTooLong}
    else {}
  }

  /** `nullable|image|mimes:png,jpeg|max:2048`: an absent image passes;
      a present one is checked by every rule. */
  function ImageErrors(image: Option<Upload>): set<MessageRule> {
    match image
    case None => {}
    case Some(f) =>
      (if f.kind == NotImage then {ImageNotImage} else {})
      + (if f.kind != Png && f.kind != Jpeg then {ImageWrongType} else {})
      + (if f.sizeBytes > MaxImageBytes then {ImageTooLarge} else {})
  }

  /** Edits (PUT/PATCH) carry only the body rule; sends add the image rule. */
  function MessageErrors(verb: HttpMethod, body: Option<string>, image: Option<Upload>): set<MessageRule> {
    BodyErrors(body) + (if verb == Post then ImageErrors(image) else {})
  }

  /** The request passes exactly when the body is present, not blank and at
      most 400 characters, and, for a send carrying an image, the image is a
      png or jpeg of at most 2048 KB, that is 2,097,152 bytes. */
  function MessagePasses(verb: HttpMethod, body: Option<string>, image: Option<Upload>): (ok: bool)
    ensures ok <==>
      && body.Some? && !IsBlank(body.value) && |body.value| <= 400
      && (verb == Post && image.Some? ==>
            (image.value.kind == Png || image.value.kind == Jpeg) && image.value.sizeBytes <= 2048 * 1024)
  {
    MessageErrors(verb, body, image) == {}
  }

  /** The size bound is not rounded to whole kilobytes: 2048 KB exactly
      passes, half a kilobyte more fails. */
  lemma ImageSizeBoundary(body: string)
    requires !IsBlank(body) && |body| <= MaxBodyLength
    ensures MessagePasses(Post, Some(body), Some(Upload(Png, 2048 * 1024)))
    ensures !MessagePasses(Post, Some(body), Some(Upload(Png, 2048 * 1024 + 512)))
  {
  }

  /** An edit ignores any image; a send without one is judged on the body alone. */
  lemma EditIgnoresImage(verb: HttpMethod, body: Option<string>, image: Option<Upload>)
    requires verb != Post
    ensures MessagePasses(verb, body, image) == MessagePasses(Post, body, None)
  {
  }

  // ---------------------------------------------------------------------------
  // ItemRequest

  datatype ItemForm = ItemForm(
    name: Option<string>,
    price: Option<string>,
    description: Option<string>,
    imgUrl: Option<Upload>,
    categories: seq<int>,
    conditionId: Option<string>)

  datatype ItemField = Name | Price | Description | ImgUrl | Categories | ConditionId

  datatype ItemRule = Required(field: ItemField) | PriceNotInteger

  predicate TextPresent(v: Option<string>) {
    v.Some? && !IsBlank(v.value)
  }

  predicate FieldPresent(f: ItemForm, field: ItemField) {
    match field
    case Name => TextPresent(f.name)
    case Price => TextPresent(f.price)
    case Description => TextPresent(f.description)
    case ImgUrl => f.imgUrl.Some?
    case Categories => |f.categories| > 0
    case ConditionId => TextPresent(f.conditionId)
  }

  /** Each field fails `required` on its own; a present price must also
      pass `integer`, which is not consulted once `required` failed. */
  function ItemErrors(f: ItemForm): (e: set<ItemRule>)
    ensures forall field: ItemField :: Required(field) in e <==> !FieldPresent(f, field)
    ensures PriceNotInteger in e <==> f.price.Some? && !IsBlank(f.price.value) && !IsIntegerText(f.price.value)
  {
    (set field: ItemField | !FieldPresent(f, field) :: Required(field))
    + (if TextPresent(f.price) && !IsIntegerText(f.price.value) then {PriceNotInteger} else {})
  }

  /** The form passes exactly when every field is present and the price is
      an integer. */
  function ItemPasses(f: ItemForm): (ok: bool)
    ensures ok <==> (forall field: ItemField :: FieldPresent(f, field)) && f.price.Some? && IsIntegerText(f.price.value)
  {
    var e := ItemErrors(f);
    assert Required(Price) in e <==> !FieldPresent(f, Price);
    assert e != {} ==> exists r :: r in e;
    e == {}
  }

  /** The field a failing rule is reported under. */
  function RuleField(r: ItemRule): ItemField {
    match r
    case Required(field) => field
    case PriceNotInteger => Price
  }

  /** The key under which the request's custom message for a rule is kept. */
  function MessageKey(r: ItemRule): string {
    match r
    case Required(Name) => "name.required"
    case Required(Price) => "price.required"
    case PriceNotInteger => "price.integer"
    case Required(Description) => "description.required"
    case Required(ImgUrl) => "img_url.required"
    case Required(Categories) => "categories.required"
    case Required(ConditionId) => "condition_id.required"
  }

  /** Which rule a message key belongs to. */
  function RuleOfKey(k: string): Option<ItemRule> {
    if k == "name.required" then Some(Required(Name))
    else if k == "price.required" then Some(Required(Price))
    else if k == "price.integer" then Some(PriceNotInteger)
    else if k == "description.required" then Some(Required(Description))
    else if k == "img_url.required" then Some(Required(ImgUrl))
    else if k == "categories.required" then Some(Required(Categories))
    else if k == "condition_id.required" then Some(Required(ConditionId))
    else None
  }

  /** Every failing rule has its own message: the key leads back to the rule. */
  lemma MessageKeyRoundTrip(r: ItemRule)
    ensures RuleOfKey(MessageKey(r)) == Some(r)
  {
  }

  lemma MessageKeysDistinct(r1: ItemRule, r2: ItemRule)
    requires r1 != r2
    ensures MessageKey(r1) != MessageKey(r2)
  {
    MessageKeyRoundTrip(r1);
    MessageKeyRoundTrip(r2);
  }

  // ---------------------------------------------------------------------------
  // The `integer` rule (PHP's FILTER_VALIDATE_INT)

  const PhpIntMax: nat := 0x7FFF_FFFF_FFFF_FFFF

  predicate IsFilterSpace(c: char) {
    c == ' ' || c == '\t' || c == '\n' || c == '\r' || c == '\U{000B}'
  }

  function TrimStart(s: string): (r: string)
    ensures |r| <= |s| && r == s[|s| - |r|..]
    ensures |r| > 0 ==> !IsFilterSpace(r[0])
  {
    if |s| > 0 && IsFilterSpace(s[0]) then TrimStart(s[1..]) else s
  }

  function TrimEnd(s: string): (r: string)
    ensures |r| <= |s| && r == s[..|r|]
    ensures |r| > 0 ==> !IsFilterSpace(r[|r| - 1])
  {
    if |s| > 0 && IsFilterSpace(s[|s| - 1]) then TrimEnd(s[..|s| - 1]) else s
  }

  predicate IsDigit(c: char) {
    '0' <= c <= '9'
  }

  function DigitsValue(d: string): nat
    requires forall i :: 0 <= i < |d| ==> IsDigit(d[i])
  {
    if d == [] then 0
    else
      assert IsDigit(d[|d| - 1]);
      DigitsValue(d[..|d| - 1]) * 10 + (d[|d| - 1] as int - '0' as int)
  }

  /** Digits without a superfluous leading zero. */
  predicate CanonicalDigits(d: string) {
    |d| > 0 && (forall i :: 0 <= i < |d| ==> IsDigit(d[i])) && (d[0] != '0' || |d| == 1)
  }

  /** Surrounding whitespace, an optional sign, canonical digits, and a value
      inside PHP's 64-bit integer range. */
  predicate IsIntegerText(s: string) {
    var t := TrimEnd(TrimStart(s));
    var negative := |t| > 0 && t[0] == '-';
    var d := if |t| > 0 && (t[0] == '-' || t[0] == '+') then t[1..] else t;
    CanonicalDigits(d) && DigitsValue(d) <= (if negative then PhpIntMax + 1 else PhpIntMax)
  }

  /** Decimal text of a natural number, as a form would submit it. */
  function DecimalText(n: nat): (d: string)
    ensures CanonicalDigits(d)
    ensures DigitsValue(d) == n
    decreases n
  {
    if n < 10 then [('0' as int + n) as char]
    else
      var prefix := DecimalText(n / 10);
      var d := prefix + [('0' as int + n % 10) as char];
      assert d[..|d| - 1] == prefix;
      d
  }

  /** Every price a form writes out in plain decimal passes the `integer` rule. */
  lemma {:induction false} DecimalPriceIsInteger(n: nat)
    requires n <= PhpIntMax
    ensures IsIntegerText(DecimalText(n))
  {
    var d := DecimalText(n);
    assert IsDigit(d[0]) && IsDigit(d[|d| - 1]);
    assert TrimStart(d) == d;
    assert TrimEnd(d) == d;
    assert d[0] != '-' && d[0] != '+';
  }
}
