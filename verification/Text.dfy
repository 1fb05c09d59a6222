/** Text handling shared by the kernel: what Rust's `trim`, `is_control`, `len` and string order
    do to the values that end up in tables, and the two normalizers every writer applies. */
module Text {

  datatype Option<+T> = None | Some(value: T)

  datatype Result<+T, +E> = Ok(value: T) | Err(error: E) {
    predicate IsFailure() { Err? }
    function PropagateFailure<U>(): Result<U, E> requires Err? { Err(error) }
    function Extract(): T requires Ok? { value }
  }

  /** Unicode White_Space, the set removed by `str::trim`. */
  predicate IsSpace(c: char) {
    var n := c as int;
    || 9 <= n <= 13 || n == 32 || n == 0x85 || n == 0xA0 || n == 0x1680
    || 0x2000 <= n <= 0x200A || n == 0x2028 || n == 0x2029 || n == 0x202F || n == 0x205F || n == 0x3000
  }

  /** Unicode general category Cc, as tested by `char::is_control`. */
  predicate IsControl(c: char) {
    c as int < 0x20 || 0x7F <= c as int < 0xA0
  }

  predicate HasControl(s: string) {
    exists i | 0 <= i < |s| :: IsControl(s[i])
  }

  /** The first position from i on that does not hold a space. */
  function TextStart(s: string, i: nat): (r: nat)
    requires i <= |s|
    ensures i <= r <= |s| && (r < |s| ==> !IsSpace(s[r]))
    decreases |s| - i
  {
    if i < |s| && IsSpace(s[i]) then TextStart(s, i + 1) else i
  }

  /** The last position down to i after something that is no space. */
  function TextEnd(s: string, i: nat, j: nat): (r: nat)
    requires i <= j <= |s|
    ensures i <= r <= j && (i < r ==> !IsSpace(s[r - 1]))
  {
    if i < j && IsSpace(s[j - 1]) then TextEnd(s, i, j - 1) else j
  }

  function Trim(s: string): (r: string)
    ensures r != [] ==> !IsSpace(r[0]) && !IsSpace(r[|r| - 1])
  {
    var i := TextStart(s, 0);
    s[i..TextEnd(s, i, |s|)]
  }

  /** A text without space at either end is its own trimmed form. */
  lemma TrimFixed(s: string)
    requires s != [] && !IsSpace(s[0]) && !IsSpace(s[|s| - 1])
    ensures Trim(s) == s
  {
    hide IsSpace;
    assert TextStart(s, 0) == 0 && TextEnd(s, 0, |s|) == |s|;
  }

  predicate AllSpace(s: string) {
    forall i | 0 <= i < |s| :: IsSpace(s[i])
  }

  lemma {:induction false} SkippedStart(s: string, i: nat)
    requires i <= |s|
    ensures forall k | i <= k < TextStart(s, i) :: IsSpace(s[k])
    decreases |s| - i
  {
    hide IsSpace;
    if i < |s| && IsSpace(s[i]) { SkippedStart(s, i + 1); }
  }

  lemma {:induction false} SkippedEnd(s: string, i: nat, j: nat)
    requires i <= j <= |s|
    ensures forall k | TextEnd(s, i, j) <= k < j :: IsSpace(s[k])
  {
    hide IsSpace;
    if i < j && IsSpace(s[j - 1]) { SkippedEnd(s, i, j - 1); }
  }

  /** The text between these positions, with nothing but space outside. */
  predicate IsTrimmed(s: string, i: nat, j: nat, t: string) {
    i <= j <= |s| && t == s[i..j] && AllSpace(s[..i]) && AllSpace(s[j..])
  }

  /** Trimming takes away the space at both ends and nothing else. */
  lemma TrimExact(s: string)
    ensures exists i, j :: IsTrimmed(s, i, j, Trim(s))
    ensures Trim(s) != [] ==> !IsSpace(Trim(s)[0]) && !IsSpace(Trim(s)[|Trim(s)| - 1])
  {
    hide IsSpace;
    var i := TextStart(s, 0);
    SkippedStart(s, 0);
    SkippedEnd(s, i, |s|);
    assert IsTrimmed(s, i, TextEnd(s, i, |s|), Trim(s));
  }

  predicate Blank(s: string) {
    Trim(s) == []
  }

  /** A text is blank exactly when it is all space. */
  lemma BlankExact(s: string)
    ensures Blank(s) <==> AllSpace(s)
  {
    hide IsSpace;
    var i := TextStart(s, 0);
    SkippedStart(s, 0);
    if i < |s| {
      assert !IsSpace(s[i]);
      if TextEnd(s, i, |s|) == i { SkippedEnd(s, i, |s|); }
    }
  }

  /** Trimming twice is trimming once, so a stored value is a fixed point. */
  lemma TrimIdempotent(s: string)
    ensures Trim(Trim(s)) == Trim(s)
  {
    hide IsSpace;
    if Trim(s) != [] { TrimFixed(Trim(s)); }
  }

  /** Length in bytes of the UTF-8 form, as `str::len` counts it. */
  function ByteLength(s: string): nat {
    if s == [] then 0
    else
      var n := s[0] as int;
      (if n < 0x80 then 1 else if n < 0x800 then 2 else if n < 0x1_0000 then 3 else 4) + ByteLength(s[1..])
  }

  /** What a writer lets into a text column. */
  predicate WellFormed(s: string) {
    !Blank(s) && !HasControl(s) && Trim(s) == s
  }

  function Normalize(value: string, maxBytes: nat): (r: Option<string>)
    ensures r.Some? ==> WellFormed(r.value) && r.value == Trim(value)
  {
    var t := Trim(value);
    TrimIdempotent(value);
    if t == [] || ByteLength(t) > maxBytes || HasControl(t) then None else Some(t)
  }

  predicate IsAlphanumeric(c: char) {
    'A' <= c <= 'Z' || 'a' <= c <= 'z' || '0' <= c <= '9'
  }

  /** `^[A-Za-z0-9][A-Za-z0-9._:-]{0,63}$` */
  predicate IsParticipantId(s: string) {
    && 1 <= |s| <= 64
    && IsAlphanumeric(s[0])
    && forall i | 0 <= i < |s| :: IsAlphanumeric(s[i]) || s[i] == '.' || s[i] == '_' || s[i] == ':' || s[i] == '-'
  }

  /** `^[A-Za-z0-9][A-Za-z0-9._:/-]{0,127}$`, the form of sources and of channel names. */
  predicate IsName(s: string) {
    && 1 <= |s| <= 128
    && IsAlphanumeric(s[0])
    && forall i | 0 <= i < |s| ::
         IsAlphanumeric(s[i]) || s[i] == '.' || s[i] == '_' || s[i] == ':' || s[i] == '/' || s[i] == '-'
  }

  function ValidateParticipantId(s: string): (r: Option<string>)
    ensures r.Some? ==> IsParticipantId(r.value) && WellFormed(r.value) && r.value == Trim(s)
  {
    var t := Trim(s);
    if IsParticipantId(t) then ParticipantIdWellFormed(t); Some(t) else None
  }

  lemma ParticipantIdWellFormed(s: string)
    requires IsParticipantId(s)
    ensures WellFormed(s) && Trim(s) == s && !Blank(s)
  {
    assert !IsSpace(s[0]) && !IsSpace(s[|s| - 1]);
    TrimFixed(s);
  }

  /** Decimal rendering of an integer, as `to_string` gives it. */
  function Decimal(n: int): string
    decreases if n < 0 then 1 else 0, if n < 0 then -n else n
  {
    if n < 0 then "-" + Decimal(-n)
    else if n < 10 then ['0' + n as char]
    else Decimal(n / 10) + ['0' + (n % 10) as char]
  }

  /** The number a decimal text stands for. */
  function ValueOf(text: string): int {
    if text != [] && text[0] == '-' then -DigitsValue(text[1..]) else DigitsValue(text)
  }

  function DigitsValue(digits: string): int {
    if digits == [] then 0
    else DigitsValue(digits[..|digits| - 1]) * 10 + (digits[|digits| - 1] as int - '0' as int)
  }

  lemma {:induction false} DigitsReadBack(n: nat)
    ensures DigitsValue(Decimal(n)) == n
    ensures Decimal(n) != [] && Decimal(n)[0] != '-'
  {
    if n < 10 {
      assert Decimal(n)[..0] == [];
    } else {
      DigitsReadBack(n / 10);
      assert Decimal(n)[..|Decimal(n)| - 1] == Decimal(n / 10);
    }
  }

  /** The rendering of a number reads back as the number, so different numbers are rendered differently. */
  lemma DecimalReadsBack(n: int)
    ensures ValueOf(Decimal(n)) == n
  {
    if n < 0 {
      DigitsReadBack(-n);
      assert Decimal(n)[1..] == Decimal(-n);
    } else {
      DigitsReadBack(n);
    }
  }

  // ---- UTF-8 --------------------------------------------------------------------------------

  /** Lead byte and continuation bytes of a character, section 3 of RFC 3629. */
  function Utf8Char(c: char): seq<int> {
    var n := c as int;
    if n <= 0x7F then [n]
    else if n <= 0x7FF then [0xC0 + n / 0x40, 0x80 + n % 0x40]
    else if n <= 0xFFFF then [0xE0 + n / 0x40 / 0x40, 0x80 + n / 0x40 % 0x40, 0x80 + n % 0x40]
    else [0xF0 + n / 0x40 / 0x40 / 0x40, 0x80 + n / 0x40 / 0x40 % 0x40, 0x80 + n / 0x40 % 0x40, 0x80 + n % 0x40]
  }

  function Utf8(s: string): seq<int> {
    if s == [] then [] else Utf8Char(s[0]) + Utf8(s[1..])
  }

  /** The lead byte alone tells how many bytes the character takes. */
  function LeadLength(lead: int): nat {
    if lead < 0x80 then 1 else if lead < 0xE0 then 2 else if lead < 0xF0 then 3 else 4
  }

  function DecodedChar(bytes: seq<int>): int
    requires bytes != [] && |bytes| >= LeadLength(bytes[0])
  {
    match LeadLength(bytes[0])
    case 1 => bytes[0]
    case 2 => (bytes[0] - 0xC0) * 0x40 + (bytes[1] - 0x80)
    case 3 => (bytes[0] - 0xE0) * 0x1000 + (bytes[1] - 0x80) * 0x40 + (bytes[2] - 0x80)
    case _ => (bytes[0] - 0xF0) * 0x40000 + (bytes[1] - 0x80) * 0x1000 + (bytes[2] - 0x80) * 0x40 + (bytes[3] - 0x80)
  }

  lemma SixBits(n: nat)
    ensures n == n / 0x40 * 0x40 + n % 0x40 && 0 <= n % 0x40 < 0x40
  {
  }

  /** The bytes of a character give it back, and are as many as the first one says. */
  lemma Utf8CharDecodes(c: char)
    ensures var bytes := Utf8Char(c);
            |bytes| == LeadLength(bytes[0]) && DecodedChar(bytes) == c as int
  {
    var n := c as int;
    SixBits(n);
    SixBits(n / 0x40);
    SixBits(n / 0x40 / 0x40);
    var bytes := Utf8Char(c);
    if n <= 0x7F {
      assert bytes == [n];
    } else if n <= 0x7FF {
      assert LeadLength(bytes[0]) == 2;
    } else if n <= 0xFFFF {
      assert LeadLength(bytes[0]) == 3;
    } else {
      assert LeadLength(bytes[0]) == 4;
    }
  }

  /** The length is that of the UTF-8 form. */
  lemma {:induction false} ByteLengthExact(s: string)
    ensures ByteLength(s) == |Utf8(s)|
  {
    if s != [] { ByteLengthExact(s[1..]); }
  }
}
