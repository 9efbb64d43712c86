/** User, store and billboard identifiers: RFC 4122 UUIDs as handled by the
    `github.com/google/uuid` package — 128 bits, written as 32 hexadecimal
    digits in groups 8-4-4-4-12. `Format` is `UUID.String()`, `Parse` is
    `uuid.Parse`. */
module Uuids {
  import opened Results

  type Nibble = x: int | 0 <= x < 16

  /** The 32 hexadecimal digits of a UUID, most significant first. */
  type Uuid = s: seq<Nibble> | |s| == 32 witness seq(32, _ => 0)

  /** The all-zero UUID, the zero value of `uuid.UUID`. */
  const Nil: Uuid := [0, 0, 0, 0, 0, 0, 0, 0, 0, 0, 0, 0, 0, 0, 0, 0, 0, 0, 0, 0, 0, 0, 0, 0, 0, 0, 0, 0, 0, 0, 0, 0]

  predicate IsDashPosition(i: int) {
    i == 8 || i == 13 || i == 18 || i == 23
  }

  /** Position in the 36-character text of the `k`-th hexadecimal digit. */
  function DigitPosition(k: nat): (i: nat)
    requires k < 32
    ensures i < 36 && !IsDashPosition(i)
  {
    if k < 8 then k else if k < 12 then k + 1 else if k < 16 then k + 2 else if k < 20 then k + 3 else k + 4
  }

  /** Index of the hexadecimal digit written at text position `i`. */
  function DigitIndex(i: nat): (k: nat)
    requires i < 36 && !IsDashPosition(i)
    ensures k < 32 && DigitPosition(k) == i
  {
    if i < 8 then i else if i < 13 then i - 1 else if i < 18 then i - 2 else if i < 23 then i - 3 else i - 4
  }

  function HexChar(n: Nibble): char {
    if n < 10 then ('0' as int + n) as char else ('a' as int + n - 10) as char
  }

  predicate IsHexChar(c: char) {
    ('0' <= c <= '9') || ('a' <= c <= 'f') || ('A' <= c <= 'F')
  }

  function HexValue(c: char): Nibble
    requires IsHexChar(c)
  {
    if '0' <= c <= '9' then c as int - '0' as int
    else if 'a' <= c <= 'f' then c as int - 'a' as int + 10
    else c as int - 'A' as int + 10
  }

  /** `UUID.String()`: lower-case digits, dashes after the 8th, 12th, 16th
      and 20th digit. */
  function Format(u: Uuid): (s: string)
    ensures |s| == 36
    ensures forall i :: 0 <= i < 36 ==> (s[i] == '-' <==> IsDashPosition(i))
    ensures forall i :: 0 <= i < 36 ==> s[i] == '-' || ('0' <= s[i] <= '9') || ('a' <= s[i] <= 'f')
  {
    seq(36, i requires 0 <= i < 36 => if IsDashPosition(i) then '-' else HexChar(u[DigitIndex(i)]))
  }

  predicate IsCanonicalText(s: string) {
    && |s| == 36
    && (forall i :: 0 <= i < 36 && IsDashPosition(i) ==> s[i] == '-')
    && (forall k :: 0 <= k < 32 ==> IsHexChar(s[DigitPosition(k)]))
  }

  predicate IsAscii(c: char) {
    c as int < 0x80
  }

  function ParseCanonical(s: string): (r: Result<Uuid>)
    requires |s| == 36
    ensures r.Ok? ==> forall i :: 0 <= i < 36 ==> IsAscii(s[i])
  {
    if IsCanonicalText(s) then
      assert forall i :: 0 <= i < 36 && !IsDashPosition(i) ==> IsHexChar(s[DigitPosition(DigitIndex(i))]);
      Ok(seq(32, k requires 0 <= k < 32 => HexValue(s[DigitPosition(k)])))
    else Err(ErrInvalidUuid)
  }

  predicate IsHexOnly(s: string) {
    |s| == 32 && forall k :: 0 <= k < 32 ==> IsHexChar(s[k])
  }

  predicate EqualFoldAscii(a: string, b: string) {
    |a| == |b| && forall i :: 0 <= i < |a| ==> LowerAscii(a[i]) == LowerAscii(b[i])
  }

  function LowerAscii(c: char): char {
    if 'A' <= c <= 'Z' then (c as int + 32) as char else c
  }

  /** `uuid.Parse`: accepts the 36-character form, the same between two
      wrapper characters (meant as braces, but neither is looked at), the
      same prefixed by `urn:uuid:` (any letter case), and the 32 digits
      without dashes; digits may be upper or lower case. Go switches on
      the length in bytes: a wrapper outside ASCII makes the text longer
      than 38 bytes, so only ASCII wrappers are accepted. Every accepted
      text is ASCII, so its length in characters is its length in bytes. */
  function Parse(s: string): (r: Result<Uuid>)
    ensures r.Ok? ==> |s| in {32, 36, 38, 45}
    ensures r.Ok? ==> forall i :: 0 <= i < |s| ==> IsAscii(s[i])
    ensures r.Err? ==> r.error == ErrInvalidUuid
    ensures |s| == 38 ==> r == (if IsAscii(s[0]) && IsAscii(s[37]) then Parse(s[1..37]) else Err(ErrInvalidUuid))
    ensures |s| == 45 && !EqualFoldAscii(s[..9], "urn:uuid:") ==> r.Err?
  {
    if |s| == 36 then ParseCanonical(s)
    else if |s| == 45 then
      if EqualFoldAscii(s[..9], "urn:uuid:") then
        assert forall i :: 0 <= i < 9 ==> IsAscii(s[i]) by {
          forall i | 0 <= i < 9 ensures IsAscii(s[i]) {
            assert LowerAscii(s[..9][i]) == LowerAscii("urn:uuid:"[i]);
          }
        }
        var r := ParseCanonical(s[9..]);
        assert r.Ok? ==> forall i :: 9 <= i < 45 ==> s[i] == s[9..][i - 9];
        r
      else Err(ErrInvalidUuid)
    else if |s| == 38 then
      if IsAscii(s[0]) && IsAscii(s[37]) then
        var r := ParseCanonical(s[1..37]);
        assert r.Ok? ==> forall i :: 1 <= i < 37 ==> s[i] == s[1..37][i - 1];
        r
      else Err(ErrInvalidUuid)
    else if |s| == 32 then
      if IsHexOnly(s) then Ok(seq(32, k requires 0 <= k < 32 => HexValue(s[k]))) else Err(ErrInvalidUuid)
    else Err(ErrInvalidUuid)
  }

  lemma HexRoundTrip(n: Nibble)
    ensures IsHexChar(HexChar(n)) && HexValue(HexChar(n)) == n
  {
  }

  /** Formatting then parsing gives back the identifier. */
  lemma ParseFormat(u: Uuid)
    ensures Parse(Format(u)) == Ok(u)
  {
    var s := Format(u);
    forall k | 0 <= k < 32
      ensures IsHexChar(s[DigitPosition(k)]) && HexValue(s[DigitPosition(k)]) == u[k]
    {
      assert DigitIndex(DigitPosition(k)) == k;
      HexRoundTrip(u[k]);
    }
    assert IsCanonicalText(s);
    assert seq(32, k requires 0 <= k < 32 => HexValue(s[DigitPosition(k)])) == u;
  }

  lemma HexValueChar(c: char)
    requires IsHexChar(c)
    ensures HexChar(HexValue(c)) == LowerAscii(c)
  {
  }

  /** Parsing the 36-character form then formatting gives the text back,
      with its letters in lower case. */
  lemma ParseThenFormat(s: string)
    requires |s| == 36 && Parse(s).Ok?
    ensures Format(Parse(s).value) == seq(36, i requires 0 <= i < 36 => LowerAscii(s[i]))
  {
    var u := Parse(s).value;
    var t := Format(u);
    forall i | 0 <= i < 36
      ensures t[i] == LowerAscii(s[i])
    {
      if !IsDashPosition(i) {
        var k := DigitIndex(i);
        HexValueChar(s[DigitPosition(k)]);
      }
    }
  }

  /** The wrapped form accepts any two ASCII characters around the text. */
  lemma ParseWrapped(u: Uuid, open: char, close: char)
    requires IsAscii(open) && IsAscii(close)
    ensures Parse([open] + Format(u) + [close]) == Ok(u)
  {
    var s := [open] + Format(u) + [close];
    assert s[1..37] == Format(u);
    ParseFormat(u);
  }

  /** Distinct identifiers have distinct texts. */
  lemma FormatInjective(u: Uuid, v: Uuid)
    requires Format(u) == Format(v)
    ensures u == v
  {
    ParseFormat(u);
    ParseFormat(v);
  }
}
