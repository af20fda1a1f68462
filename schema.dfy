/**
 * The form schemas (src/lib/zod/schema.ts): what each form accepts and the
 * value a successful parse hands back, with strings trimmed where the
 * schema says `.trim()` and `active` defaulted to `true`.
 */
module Schema {
  import opened Wrappers
  import opened Decimal
  import opened AdminTypes

  // ---------------------------------------------------------------------
  // Strings as JavaScript sees them
  // ---------------------------------------------------------------------

  /** The white space and line terminators `String.prototype.trim` removes. */
  predicate IsJsSpace(c: char) {
    var n := c as int;
    (0x9 <= n <= 0xD) || n == 0x20 || n == 0xA0 || n == 0x1680
    || (0x2000 <= n <= 0x200A)
    || n == 0x2028 || n == 0x2029 || n == 0x202F || n == 0x205F
    || n == 0x3000 || n == 0xFEFF
  }

  /** The first position from `i` on that does not hold white space, or `|s|`. */
  function ContentStart(s: string, i: nat): (n: nat)
    requires i <= |s|
    ensures i <= n <= |s|
    ensures forall k :: i <= k < n ==> IsJsSpace(s[k])
    ensures n == |s| || !IsJsSpace(s[n])
    decreases |s| - i
  {
    if i < |s| && IsJsSpace(s[i]) then ContentStart(s, i + 1) else i
  }

  /** The position just after the last character before `j` that is not white space, but not below `lo`. */
  function ContentEnd(s: string, lo: nat, j: nat): (m: nat)
    requires lo <= j <= |s|
    ensures lo <= m <= j
    ensures forall k :: m <= k < j ==> IsJsSpace(s[k])
    ensures m == lo || !IsJsSpace(s[m - 1])
  {
    if j > lo && IsJsSpace(s[j - 1]) then ContentEnd(s, lo, j - 1) else j
  }

  /** `r` is `s` from position `i` on, with only white space cut off either side. */
  predicate TrimmedAt(s: string, r: string, i: int) {
    && 0 <= i <= i + |r| <= |s| && r == s[i..i + |r|]
    && (forall k :: 0 <= k < i ==> IsJsSpace(s[k]))
    && (forall k :: i + |r| <= k < |s| ==> IsJsSpace(s[k]))
  }

  /** `s.trim()`: a slice of `s`, with only white space cut off, starting and ending on other characters. */
  function Trim(s: string): (r: string)
    ensures exists i :: TrimmedAt(s, r, i)
    ensures r == [] || (!IsJsSpace(r[0]) && !IsJsSpace(r[|r| - 1]))
  {
    var i := ContentStart(s, 0);
    var j := ContentEnd(s, i, |s|);
    assert TrimmedAt(s, s[i..j], i);
    s[i..j]
  }

  /** A string that starts and ends on other characters than white space is its own trim. */
  lemma TrimOfTrimmed(s: string)
    requires s == [] || (!IsJsSpace(s[0]) && !IsJsSpace(s[|s| - 1]))
    ensures Trim(s) == s
  {
    assert s[0..|s|] == s;
  }

  /** Trimming twice is trimming once. */
  lemma TrimIdempotent(s: string)
    ensures Trim(Trim(s)) == Trim(s)
  {
    TrimOfTrimmed(Trim(s));
  }

  /** `s.length`: UTF-16 code units, two for a character outside the basic plane. */
  function Utf16Length(s: string): (n: nat)
    ensures |s| <= n <= 2 * |s|
  {
    if s == [] then 0 else (if s[0] as int > 0xFFFF then 2 else 1) + Utf16Length(s[1..])
  }

  /** A string of the basic plane, decimal digits among them, has one code unit per character. */
  lemma {:induction false} Utf16LengthOfBasic(s: string)
    requires forall k :: 0 <= k < |s| ==> s[k] as int <= 0xFFFF
    ensures Utf16Length(s) == |s|
  {
    if s != [] {
      assert forall k :: 0 <= k < |s| - 1 ==> s[1..][k] == s[k + 1];
      Utf16LengthOfBasic(s[1..]);
    }
  }

  /** `/^\d+$/.test(s)`: one or more ASCII digits and nothing else. */
  predicate IsNumeric(s: string) {
    |s| > 0 && IsDigits(s)
  }

  /** `z.string().trim().min(lo).max(hi)` on a present field. */
  predicate TrimmedLengthIn(s: string, lo: nat, hi: nat) {
    lo <= Utf16Length(Trim(s)) <= hi
  }

  /** `z.string().trim().max(hi).optional()`. */
  predicate OptionalTrimmedAtMost(s: Option<string>, hi: nat) {
    s.None? || Utf16Length(Trim(s.value)) <= hi
  }

  /** The trimmed value of an optional field. */
  function TrimOption(s: Option<string>): (r: Option<string>)
    ensures r.Some? <==> s.Some?
    ensures s.Some? ==> r.value == Trim(s.value)
  {
    match s
    case None => None
    case Some(v) => Some(Trim(v))
  }

  /** The phone number check after trimming: digits only, 10 to 14 of them. */
  predicate PhoneOk(p: string) {
    IsNumeric(p) && 10 <= |p| <= 14
  }

  /** A digit string has as many code units as characters. */
  lemma DigitsLength(s: string)
    ensures IsDigits(s) ==> Utf16Length(s) == |s|
  {
    if !IsDigits(s) { return; }
    assert forall k :: 0 <= k < |s| ==> s[k] as int <= 0xFFFF by {
      forall k | 0 <= k < |s| ensures s[k] as int <= 0xFFFF {
        assert IsDigit(s[k]);
      }
    }
    Utf16LengthOfBasic(s);
  }

  // ---------------------------------------------------------------------
  // barberSchema
  // ---------------------------------------------------------------------

  datatype BarberInput = BarberInput(
    id: string, name: string, phoneNumber: string,
    description: Option<string>, skills: Option<string>, experience: Option<string>,
    active: Option<bool>)

  datatype Barber = Barber(
    id: string, name: string, phoneNumber: string,
    description: Option<string>, skills: Option<string>, experience: Option<string>,
    active: bool)

  function ParseBarber(x: BarberInput): (r: Option<Barber>)
    ensures r.Some? <==>
      && IsNumeric(x.id)
      && 1 <= Utf16Length(Trim(x.name)) <= 50
      && IsNumeric(Trim(x.phoneNumber)) && 10 <= Utf16Length(Trim(x.phoneNumber)) <= 14
      && OptionalTrimmedAtMost(x.description, 255)
      && OptionalTrimmedAtMost(x.skills, 255)
      && OptionalTrimmedAtMost(x.experience, 255)
    ensures r.Some? ==> r.value == Barber(
      x.id, Trim(x.name), Trim(x.phoneNumber),
      TrimOption(x.description), TrimOption(x.skills), TrimOption(x.experience),
      x.active.GetOr(true))
  {
    DigitsLength(Trim(x.phoneNumber));
    if IsNumeric(x.id) && TrimmedLengthIn(x.name, 1, 50) && PhoneOk(Trim(x.phoneNumber))
       && OptionalTrimmedAtMost(x.description, 255)
       && OptionalTrimmedAtMost(x.skills, 255)
       && OptionalTrimmedAtMost(x.experience, 255)
    then
      Some(Barber(x.id, Trim(x.name), Trim(x.phoneNumber),
                  TrimOption(x.description), TrimOption(x.skills), TrimOption(x.experience),
                  x.active.GetOr(true)))
    else None
  }

  /** The input a parsed barber would be submitted as. */
  function BarberAsInput(b: Barber): BarberInput {
    BarberInput(b.id, b.name, b.phoneNumber, b.description, b.skills, b.experience, Some(b.active))
  }

  /** Trimming an optional field twice is trimming it once, and keeps its bound. */
  lemma TrimOptionIdempotent(s: Option<string>, hi: nat)
    requires OptionalTrimmedAtMost(s, hi)
    ensures TrimOption(TrimOption(s)) == TrimOption(s)
    ensures OptionalTrimmedAtMost(TrimOption(s), hi)
  {
    if s.Some? {
      TrimIdempotent(s.value);
    }
  }

  /** A trimmed field that met its bounds meets them again and trims to itself. */
  lemma TrimmedFieldKept(s: string, lo: nat, hi: nat)
    requires TrimmedLengthIn(s, lo, hi)
    ensures TrimmedLengthIn(Trim(s), lo, hi) && Trim(Trim(s)) == Trim(s)
  {
    TrimIdempotent(s);
  }

  /** A parsed barber passes the schema again and parses to itself. */
  lemma BarberReparse(x: BarberInput)
    requires ParseBarber(x).Some?
    ensures ParseBarber(BarberAsInput(ParseBarber(x).value)) == ParseBarber(x)
  {
    var b := ParseBarber(x).value;
    TrimmedFieldKept(x.name, 1, 50);
    TrimIdempotent(x.phoneNumber);
    DigitsLength(b.phoneNumber);
    TrimOptionIdempotent(x.description, 255);
    TrimOptionIdempotent(x.skills, 255);
    TrimOptionIdempotent(x.experience, 255);
    var y := BarberAsInput(b);
    assert Trim(y.name) == y.name && Trim(y.phoneNumber) == y.phoneNumber;
    assert TrimmedLengthIn(y.name, 1, 50) && PhoneOk(Trim(y.phoneNumber));
    assert TrimOption(y.description) == y.description;
    assert TrimOption(y.skills) == y.skills;
    assert TrimOption(y.experience) == y.experience;
  }

  /** A parsed barber's phone number is 10 to 14 digits with nothing around them. */
  lemma BarberPhone(x: BarberInput)
    requires ParseBarber(x).Some?
    ensures var p := ParseBarber(x).value.phoneNumber;
      IsDigits(p) && 10 <= |p| <= 14
  {
    DigitsLength(Trim(x.phoneNumber));
  }

  // ---------------------------------------------------------------------
  // serviceSchema
  // ---------------------------------------------------------------------

  /** Prices and coins are JavaScript numbers; a real stands for a finite one. */
  datatype ServiceInput = ServiceInput(
    id: string, name: string, price: real, description: string, attainableCoin: real)

  function ParseService(x: ServiceInput): (r: Option<ServiceInput>)
    ensures r.Some? <==>
      && IsNumeric(x.id)
      && 1 <= Utf16Length(Trim(x.name)) <= 50
      && 1.0 <= x.price <= 9999999.0
      && Utf16Length(Trim(x.description)) <= 255
      && 0.0 <= x.attainableCoin <= 9999999.0
    ensures r.Some? ==>
      r.value == x.(name := Trim(x.name), description := Trim(x.description))
  {
    if IsNumeric(x.id) && TrimmedLengthIn(x.name, 1, 50) && 1.0 <= x.price <= 9999999.0
       && TrimmedLengthIn(x.description, 0, 255) && 0.0 <= x.attainableCoin <= 9999999.0
    then Some(x.(name := Trim(x.name), description := Trim(x.description)))
    else None
  }

  /** A parsed service passes the schema again and parses to itself. */
  lemma ServiceReparse(x: ServiceInput)
    requires ParseService(x).Some?
    ensures ParseService(ParseService(x).value) == ParseService(x)
  {
    TrimIdempotent(x.name);
    TrimIdempotent(x.description);
  }

  // ---------------------------------------------------------------------
  // voucherSchema
  // ---------------------------------------------------------------------

  /** The `{ date, time }` pair of a voucher's start or expiry. */
  datatype DateTimeInput = DateTimeInput(date: string, time: string)

  /** `refine((v) => v)` on a string: it is truthy, so not empty. */
  predicate Truthy(s: string) {
    s != []
  }

  predicate DateTimeOk(d: DateTimeInput) {
    Truthy(d.date) && Truthy(d.time)
  }

  datatype VoucherInput = VoucherInput(
    id: Option<string>, title: string, startDate: DateTimeInput, expiredDate: DateTimeInput,
    description: string, service: string, value: real)

  function ParseVoucher(x: VoucherInput): (r: Option<VoucherInput>)
    ensures r.Some? <==>
      && 1 <= Utf16Length(Trim(x.title)) <= 50
      && x.startDate.date != [] && x.startDate.time != []
      && x.expiredDate.date != [] && x.expiredDate.time != []
      && Utf16Length(Trim(x.description)) <= 255
      && 1 <= Utf16Length(Trim(x.service)) <= 50
      && 1.0 <= x.value <= 100.0
    ensures r.Some? ==>
      r.value == x.(title := Trim(x.title), description := Trim(x.description), service := Trim(x.service))
  {
    if TrimmedLengthIn(x.title, 1, 50) && DateTimeOk(x.startDate) && DateTimeOk(x.expiredDate)
       && TrimmedLengthIn(x.description, 0, 255) && TrimmedLengthIn(x.service, 1, 50)
       && 1.0 <= x.value <= 100.0
    then Some(x.(title := Trim(x.title), description := Trim(x.description), service := Trim(x.service)))
    else None
  }

  /** A parsed voucher passes the schema again and parses to itself. */
  lemma VoucherReparse(x: VoucherInput)
    requires ParseVoucher(x).Some?
    ensures ParseVoucher(ParseVoucher(x).value) == ParseVoucher(x)
  {
    TrimIdempotent(x.title);
    TrimIdempotent(x.description);
    TrimIdempotent(x.service);
  }

  // ---------------------------------------------------------------------
  // catalogueSchema
  // ---------------------------------------------------------------------

  /** The tag `z.enum(['Long', 'Short', 'Medium'])` spells each length with. */
  function TypeName(t: CatalogueType): string {
    match t
    case Long => "Long"
    case Short => "Short"
    case Medium => "Medium"
  }

  /** The enum check: exactly the three tags are accepted, each as its own length. */
  function ParseType(s: string): (r: Option<CatalogueType>)
    ensures r.Some? <==> s in {"Long", "Short", "Medium"}
    ensures r.Some? ==> TypeName(r.value) == s
  {
    if s == "Long" then Some(Long)
    else if s == "Short" then Some(Short)
    else if s == "Medium" then Some(Medium)
    else None
  }

  /** Every length survives the trip through its tag. */
  lemma TypeNameRoundTrip(t: CatalogueType)
    ensures ParseType(TypeName(t)) == Some(t)
  {
  }

  /** `file: z.any().optional()` accepts anything and is not modelled. */
  datatype CatalogueInput = CatalogueInput(
    id: Option<string>, name: string, kind: string, description: string, image: Option<string>)

  datatype CatalogueForm = CatalogueForm(
    id: Option<string>, name: string, kind: CatalogueType, description: string, image: Option<string>)

  function ParseCatalogue(x: CatalogueInput): (r: Option<CatalogueForm>)
    ensures r.Some? <==>
      && 1 <= Utf16Length(Trim(x.name)) <= 50
      && x.kind in {"Long", "Short", "Medium"}
      && Utf16Length(Trim(x.description)) <= 255
    ensures r.Some? ==>
      && r.value.id == x.id && r.value.name == Trim(x.name)
      && TypeName(r.value.kind) == x.kind
      && r.value.description == Trim(x.description) && r.value.image == x.image
  {
    if TrimmedLengthIn(x.name, 1, 50) && ParseType(x.kind).Some? && TrimmedLengthIn(x.description, 0, 255)
    then Some(CatalogueForm(x.id, Trim(x.name), ParseType(x.kind).value, Trim(x.description), x.image))
    else None
  }

  function CatalogueAsInput(c: CatalogueForm): CatalogueInput {
    CatalogueInput(c.id, c.name, TypeName(c.kind), c.description, c.image)
  }

  /** A parsed catalogue entry passes the schema again and parses to itself. */
  lemma CatalogueReparse(x: CatalogueInput)
    requires ParseCatalogue(x).Some?
    ensures ParseCatalogue(CatalogueAsInput(ParseCatalogue(x).value)) == ParseCatalogue(x)
  {
    TrimIdempotent(x.name);
    TrimIdempotent(x.description);
    TypeNameRoundTrip(ParseCatalogue(x).value.kind);
  }

  // ---------------------------------------------------------------------
  // operationalTimeSchema
  // ---------------------------------------------------------------------

  datatype OperationalTimeInput = OperationalTimeInput(id: Option<string>, date: string, hour: seq<string>)

  /** A non-empty date and at least one hour; nothing is transformed. */
  function ParseOperationalTime(x: OperationalTimeInput): (r: Option<OperationalTimeInput>)
    ensures r.Some? <==> x.date != [] && |x.hour| > 0
    ensures r.Some? ==> r.value == x
  {
    if Truthy(x.date) && |x.hour| > 0 then Some(x) else None
  }
}
