/** The few functions of Go's `strings` package the backend relies on, with
    Go's semantics: `TrimSpace`, `Split` on a one-character separator,
    `LastIndex` of a character, and `ToLower` (see the note on `ToLower`). */
module GoStrings {

  /** `unicode.IsSpace`: the Latin-1 white space characters and the other
      characters with the Unicode White_Space property. */
  predicate IsSpace(c: char) {
    || c == ' ' || c == '\t' || c == '\n' || c == '\r'
    || c == '\U{000B}' || c == '\U{000C}' || c == '\U{0085}' || c == '\U{00A0}'
    || c == '\U{1680}' || ('\U{2000}' <= c <= '\U{200A}')
    || c == '\U{2028}' || c == '\U{2029}' || c == '\U{202F}' || c == '\U{205F}' || c == '\U{3000}'
  }

  predicate AllSpace(s: string) {
    forall k :: 0 <= k < |s| ==> IsSpace(s[k])
  }

  function TrimLeft(s: string): (r: string)
    ensures |r| <= |s| && r == s[|s| - |r|..]
    ensures r == [] || !IsSpace(r[0])
    ensures forall i :: 0 <= i < |s| - |r| ==> IsSpace(s[i])
  {
    if |s| > 0 && IsSpace(s[0]) then TrimLeft(s[1..]) else s
  }

  function TrimRight(s: string): (r: string)
    ensures |r| <= |s| && r == s[..|r|]
    ensures r == [] || !IsSpace(r[|r| - 1])
    ensures forall i :: |r| <= i < |s| ==> IsSpace(s[i])
  {
    if |s| > 0 && IsSpace(s[|s| - 1]) then TrimRight(s[..|s| - 1]) else s
  }

  /** `strings.TrimSpace`: `s` without its leading and trailing white space. */
  function TrimSpace(s: string): (r: string)
    ensures r == [] || (!IsSpace(r[0]) && !IsSpace(r[|r| - 1]))
    ensures exists i, j :: 0 <= i <= j <= |s| && r == s[i..j] && AllSpace(s[..i]) && AllSpace(s[j..])
  {
    var l := TrimLeft(s);
    var cut := s[..|s| - |l|];
    assert AllSpace(cut) by {
      forall k | 0 <= k < |cut| ensures IsSpace(cut[k]) {
        assert cut[k] == s[k];
      }
    }
    var r := TrimRight(l);
    var tail := l[|r|..];
    assert AllSpace(tail) by {
      forall k | 0 <= k < |tail| ensures IsSpace(tail[k]) {
        assert tail[k] == l[|r| + k];
      }
    }
    TrimSpaceBounds(s, l, r);
    r
  }

  /** How the pieces of `TrimSpace` sit in `s`: a white space prefix is
      cut off to give `l`, then a white space suffix of `l` to give `r`. */
  lemma TrimSpaceBounds(s: string, l: string, r: string)
    requires |l| <= |s| && l == s[|s| - |l|..] && AllSpace(s[..|s| - |l|])
    requires |r| <= |l| && r == l[..|r|] && AllSpace(l[|r|..])
    ensures var i, j := |s| - |l|, |s| - |l| + |r|;
      r == s[i..j] && AllSpace(s[..i]) && AllSpace(s[j..])
  {
    assert s[|s| - |l| + |r|..] == l[|r|..];
  }

  lemma {:induction false} TrimLeftPadded(pre: string, s: string)
    requires AllSpace(pre)
    ensures TrimLeft(pre + s) == TrimLeft(s)
  {
    if pre == [] {
      assert pre + s == s;
    } else {
      assert (pre + s)[1..] == pre[1..] + s;
      TrimLeftPadded(pre[1..], s);
    }
  }

  lemma {:induction false} TrimRightPadded(s: string, post: string)
    requires AllSpace(post)
    ensures TrimRight(s + post) == TrimRight(s)
  {
    if post == [] {
      assert s + post == s;
    } else {
      var shorter := post[..|post| - 1];
      assert (s + post)[..|s + post| - 1] == s + shorter;
      TrimRightPadded(s, shorter);
    }
  }

  lemma {:induction false} TrimSpaceSuffix(s: string, post: string)
    requires AllSpace(post)
    ensures TrimRight(TrimLeft(s + post)) == TrimSpace(s)
  {
    if s == [] {
      assert s + post == [] + post;
      TrimLeftPadded(post, []);
    } else if IsSpace(s[0]) {
      assert (s + post)[1..] == s[1..] + post;
      TrimSpaceSuffix(s[1..], post);
    } else {
      TrimRightPadded(s, post);
    }
  }

  /** White space added around a string does not change its trim. */
  lemma TrimSpacePadded(pre: string, s: string, post: string)
    requires AllSpace(pre) && AllSpace(post)
    ensures TrimSpace(pre + s + post) == TrimSpace(s)
  {
    var t := s + post;
    assert pre + s + post == pre + t;
    TrimLeftPadded(pre, t);
    assert TrimLeft(pre + t) == TrimLeft(t);
    assert TrimSpace(pre + t) == TrimRight(TrimLeft(pre + t));
    TrimSpaceSuffix(s, post);
    assert TrimRight(TrimLeft(t)) == TrimSpace(s);
  }

  /** A string already without surrounding white space is its own trim. */
  lemma {:induction false} TrimSpaceOfTrimmed(s: string)
    requires s == [] || (!IsSpace(s[0]) && !IsSpace(s[|s| - 1]))
    ensures TrimSpace(s) == s
  {
    assert TrimLeft(s) == s;
    assert TrimRight(s) == s;
  }

  /** Trimming is idempotent: trimming twice equals trimming once. */
  lemma TrimSpaceIdempotent(s: string)
    ensures TrimSpace(TrimSpace(s)) == TrimSpace(s)
  {
    TrimSpaceOfTrimmed(TrimSpace(s));
  }

  /** Number of occurrences of `c` in `s`. */
  function Count(s: string, c: char): nat {
    if s == [] then 0 else (if s[0] == c then 1 else 0) + Count(s[1..], c)
  }

  /** `strings.Split(s, string(sep))`: the pieces of `s` between the
      occurrences of `sep`; one more piece than there are separators, so the
      empty string splits into one empty piece. */
  function Split(s: string, sep: char): (parts: seq<string>)
    ensures |parts| == Count(s, sep) + 1
    ensures forall i :: 0 <= i < |parts| ==> sep !in parts[i]
  {
    if s == [] then [""]
    else
      var rest := Split(s[1..], sep);
      if s[0] == sep then [""] + rest
      else [[s[0]] + rest[0]] + rest[1..]
  }

  /** `strings.Join`, the inverse of `Split`. */
  function Join(parts: seq<string>, sep: char): string
    requires |parts| > 0
  {
    if |parts| == 1 then parts[0] else parts[0] + [sep] + Join(parts[1..], sep)
  }

  /** Joining the pieces of a split gives back the string. */
  lemma {:induction false} JoinSplit(s: string, sep: char)
    ensures Join(Split(s, sep), sep) == s
  {
    if s != [] {
      var rest := Split(s[1..], sep);
      JoinSplit(s[1..], sep);
      if s[0] == sep {
        assert Split(s, sep) == [""] + rest;
        assert Split(s, sep)[1..] == rest;
      } else {
        var parts := Split(s, sep);
        assert parts == [[s[0]] + rest[0]] + rest[1..];
        if |rest| == 1 {
          assert parts == [[s[0]] + rest[0]];
        } else {
          assert parts[1..] == rest[1..];
          assert Join(rest, sep) == rest[0] + [sep] + Join(rest[1..], sep);
        }
      }
    }
  }

  /** Splitting pieces that do not contain the separator, once joined, gives
      back the pieces. */
  lemma {:induction false} SplitJoin(parts: seq<string>, sep: char)
    requires |parts| > 0
    requires forall i :: 0 <= i < |parts| ==> sep !in parts[i]
    ensures Split(Join(parts, sep), sep) == parts
    decreases |parts|, |parts[0]|
  {
    if parts[0] == [] {
      if |parts| > 1 {
        assert forall i :: 0 <= i < |parts| - 1 ==> parts[1..][i] == parts[i + 1];
        SplitJoin(parts[1..], sep);
        SplitSepStep(parts, sep);
      }
    } else {
      var parts' := [parts[0][1..]] + parts[1..];
      DropFirstSepFree(parts, parts', sep);
      SplitJoin(parts', sep);
      JoinCons(parts, parts', sep);
      SplitConsStep(parts, parts', sep);
    }
  }

  lemma SplitSepStep(parts: seq<string>, sep: char)
    requires |parts| > 1 && parts[0] == []
    requires Split(Join(parts[1..], sep), sep) == parts[1..]
    ensures Split(Join(parts, sep), sep) == parts
  {
    var s := Join(parts, sep);
    assert s == [sep] + Join(parts[1..], sep);
    assert s[1..] == Join(parts[1..], sep);
    assert Split(s, sep) == [""] + parts[1..];
  }

  lemma DropFirstSepFree(parts: seq<string>, parts': seq<string>, sep: char)
    requires |parts| > 0 && parts[0] != []
    requires forall i :: 0 <= i < |parts| ==> sep !in parts[i]
    requires parts' == [parts[0][1..]] + parts[1..]
    ensures parts[0][0] != sep
    ensures forall i :: 0 <= i < |parts'| ==> sep !in parts'[i]
  {
    assert parts[0][0] in parts[0];
    forall i | 0 <= i < |parts'| ensures sep !in parts'[i] {
      if i == 0 {
        assert forall k :: 0 <= k < |parts[0][1..]| ==> parts[0][1..][k] == parts[0][k + 1];
      } else {
        assert parts'[i] == parts[i];
      }
    }
  }

  lemma SplitConsStep(parts: seq<string>, parts': seq<string>, sep: char)
    requires |parts| > 0 && parts[0] != [] && parts[0][0] != sep
    requires parts' == [parts[0][1..]] + parts[1..]
    requires Join(parts, sep) == [parts[0][0]] + Join(parts', sep)
    requires Split(Join(parts', sep), sep) == parts'
    ensures Split(Join(parts, sep), sep) == parts
  {
    var s := Join(parts, sep);
    assert s[1..] == Join(parts', sep);
    assert Split(s, sep) == [[parts[0][0]] + parts'[0]] + parts'[1..];
    assert [parts[0][0]] + parts'[0] == parts[0];
    assert parts'[1..] == parts[1..];
  }

  lemma {:induction false} JoinCons(parts: seq<string>, parts': seq<string>, sep: char)
    requires |parts| > 0 && parts[0] != []
    requires parts' == [parts[0][1..]] + parts[1..]
    ensures Join(parts, sep) == [parts[0][0]] + Join(parts', sep)
  {
    if |parts| == 1 {
      assert parts[0] == [parts[0][0]] + parts[0][1..];
    } else {
      assert parts'[1..] == parts[1..];
      assert parts[0] == [parts[0][0]] + parts[0][1..];
    }
  }

  /** `strings.LastIndex(s, string(c))`: the position of the last `c`, or -1. */
  function LastIndex(s: string, c: char): (i: int)
    ensures -1 <= i < |s|
    ensures i >= 0 ==> s[i] == c
    ensures forall k :: i < k < |s| ==> s[k] != c
  {
    if s == [] then -1
    else if s[|s| - 1] == c then |s| - 1
    else LastIndex(s[..|s| - 1], c)
  }

  /** `unicode.ToLower` on the ASCII capitals and on the two characters
      outside ASCII whose lower case is an ASCII letter: LATIN CAPITAL
      LETTER I WITH DOT ABOVE (U+0130) becomes 'i' and KELVIN SIGN
      (U+212A) becomes 'k'. Every other character is kept. */
  function ToLowerChar(c: char): char {
    if 'A' <= c <= 'Z' then (c as int + 32) as char
    else if c == '\U{0130}' then 'i'
    else if c == '\U{212A}' then 'k'
    else c
  }

  /** `strings.ToLower`, one character at a time. Characters outside ASCII
      that Go maps to other characters outside ASCII are kept here. */
  function ToLower(s: string): (r: string)
    ensures |r| == |s|
    ensures forall i :: 0 <= i < |s| ==> r[i] == ToLowerChar(s[i])
  {
    seq(|s|, i requires 0 <= i < |s| => ToLowerChar(s[i]))
  }

  /** Nothing after the last `c` is a `c`. */
  lemma {:induction false} LastIndexTailFree(s: string, c: char)
    ensures c !in s[LastIndex(s, c) + 1..]
  {
    var i := LastIndex(s, c) + 1;
    var t := s[i..];
    forall k | 0 <= k < |t| ensures t[k] != c {
      assert t[k] == s[i + k] && i - 1 < i + k < |s|;
    }
  }

  /** Lower-casing neither creates nor removes a character that is not a
      letter and not one of the two capitals outside ASCII it changes. */
  lemma ToLowerKeepsNonLetter(s: string, c: char)
    requires !('A' <= c <= 'Z') && !('a' <= c <= 'z') && c != '\U{0130}' && c != '\U{212A}'
    ensures c in ToLower(s) <==> c in s
  {
    if c in ToLower(s) {
      var k :| 0 <= k < |s| && ToLower(s)[k] == c;
      assert s[k] == c;
    }
    if c in s {
      var k :| 0 <= k < |s| && s[k] == c;
      assert ToLower(s)[k] == c;
    }
  }

  predicate HasPrefix(s: string, prefix: string) {
    |prefix| <= |s| && s[..|prefix|] == prefix
  }
}
