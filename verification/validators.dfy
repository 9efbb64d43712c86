/** The two helpers of util/validators.go: the `numeric` field rule used by
    the OTP payload, and the image-file check used by the billboard payload. */
module Validators {
  import opened Results
  import opened GoStrings

  predicate IsDigit(c: char) {
    '0' <= c <= '9'
  }

  /** The `[0-9]+` part of the expression, matched from the left: one
      digit, then either the end or another match. */
  predicate DigitRun(s: string) {
    |s| > 0 && IsDigit(s[0]) && (|s| == 1 || DigitRun(s[1..]))
  }

  /** `IsNumeric`: the regular expression `^[0-9]+$` matches the whole
      text, which holds exactly when there is at least one character and
      every character is an ASCII digit. */
  function IsNumeric(s: string): (b: bool)
    ensures b <==> |s| > 0 && forall i :: 0 <= i < |s| ==> IsDigit(s[i])
  {
    DigitRunAllDigits(s);
    DigitRun(s)
  }

  lemma {:induction false} DigitRunAllDigits(s: string)
    ensures DigitRun(s) <==> |s| > 0 && forall i :: 0 <= i < |s| ==> IsDigit(s[i])
  {
    if |s| > 1 {
      DigitRunAllDigits(s[1..]);
      assert forall i :: 0 < i < |s| ==> s[i] == s[1..][i - 1];
    }
  }

  /** The part of an uploaded file the check reads: its client file name. */
  datatype FileHeader = FileHeader(filename: string)

  /** The accepted image extensions, lower case. */
  const ImageExtensions: seq<string> := ["jpg", "jpeg", "png", "gif", "bmp", "tiff", "webp"]

  /** The text after the last '.', lower-cased; a name without any '.' is
      its own extension, since the index of the missing dot is -1. */
  function Extension(filename: string): (ext: string)
    ensures '.' !in ext
    ensures ext == ToLower(filename[LastIndex(filename, '.') + 1..])
  {
    LastIndexTailFree(filename, '.');
    ToLowerKeepsNonLetter(filename[LastIndex(filename, '.') + 1..], '.');
    ToLower(filename[LastIndex(filename, '.') + 1..])
  }

  /** The whitelist search of `ValidateFile`, as its loop runs it. */
  method IsImageExtension(ext: string) returns (found: bool)
    ensures found <==> ext in ImageExtensions
  {
    found := false;
    var i := 0;
    while i < |ImageExtensions|
      invariant 0 <= i <= |ImageExtensions|
      invariant !found && ext !in ImageExtensions[..i]
    {
      if ext == ImageExtensions[i] {
        found := true;
        return;
      }
      i := i + 1;
    }
  }

  /** `ValidateFile`: a missing file, then an extension outside the
      whitelist, are the two failures. */
  function ValidateFile(file: Option<FileHeader>): (r: Outcome)
    ensures file.None? ==> r == Fail(ErrFileRequired)
    ensures file.Some? ==> (r.Pass? <==> Extension(file.value.filename) in ImageExtensions)
    ensures r.Fail? && file.Some? ==> r == Fail(ErrInvalidFileType)
  {
    match file
    case None => Fail(ErrFileRequired)
    case Some(f) => if Extension(f.filename) in ImageExtensions then Pass else Fail(ErrInvalidFileType)
  }

  /** The extension check ignores letter case: upper-case names are
      accepted exactly when their lower-case spelling is. */
  lemma ValidateFileIgnoresCase(name: string)
    ensures ValidateFile(Some(FileHeader(name))) == ValidateFile(Some(FileHeader(ToLower(name))))
  {
    var lower := ToLower(name);
    assert LastIndex(lower, '.') == LastIndex(name, '.') by {
      LastIndexToLower(name);
    }
    var i := LastIndex(name, '.') + 1;
    assert ToLower(lower[i..]) == ToLower(name[i..]);
  }

  lemma {:induction false} LastIndexToLower(s: string)
    ensures LastIndex(ToLower(s), '.') == LastIndex(s, '.')
  {
    if s != [] {
      var t := ToLower(s);
      assert t[..|t| - 1] == ToLower(s[..|s| - 1]);
      LastIndexToLower(s[..|s| - 1]);
    }
  }

  lemma {:induction false} LastIndexAt(s: string, c: char, i: nat)
    requires i < |s| && s[i] == c
    requires forall k :: i < k < |s| ==> s[k] != c
    ensures LastIndex(s, c) == i
  {
    if i < |s| - 1 {
      LastIndexAt(s[..|s| - 1], c, i);
    }
  }

  /** The extension of a name whose last dot is at `i`. */
  lemma ExtensionAt(name: string, i: nat)
    requires i < |name| && name[i] == '.'
    requires '.' !in name[i + 1..]
    ensures Extension(name) == ToLower(name[i + 1..])
  {
    forall k | i < k < |name| ensures name[k] != '.' {
      assert name[k] == name[i + 1..][k - i - 1];
    }
    LastIndexAt(name, '.', i);
  }

  /** Worked cases: upper-case letters in the extension are accepted, and
      so is a capital outside ASCII whose lower case is an ASCII letter
      ("GİF" becomes "gif"). */
  lemma ValidateFileUpperCase()
    ensures ValidateFile(Some(FileHeader("A.PNG"))).Pass?
    ensures ValidateFile(Some(FileHeader("a.G\U{0130}F"))).Pass?
  {
    ExtensionAt("A.PNG", 1);
    assert "A.PNG"[2..] == "PNG";
    assert ToLower("PNG") == "png";
    ExtensionAt("a.G\U{0130}F", 1);
    assert "a.G\U{0130}F"[2..] == "G\U{0130}F";
    assert ToLower("G\U{0130}F") == "gif";
  }

  /** Worked case: a name without a dot is its own extension. */
  lemma ValidateFileNoDot()
    ensures ValidateFile(Some(FileHeader("png"))).Pass?
  {
    assert LastIndex("png", '.') == -1;
    assert "png"[0..] == "png";
    assert ToLower("png") == "png";
  }

  /** Worked case: only the text after the last dot is looked at. */
  lemma ValidateFileLastDot()
    ensures ValidateFile(Some(FileHeader("x.exe.jpeg"))).Pass?
  {
    ExtensionAt("x.exe.jpeg", 5);
    assert "x.exe.jpeg"[6..] == "jpeg";
    assert ToLower("jpeg") == "jpeg";
  }

  /** Worked cases that fail: a trailing dot leaves an empty extension, and
      an image extension before the last dot does not count. */
  lemma ValidateFileRefusals()
    ensures ValidateFile(Some(FileHeader("photo."))) == Fail(ErrInvalidFileType)
    ensures ValidateFile(Some(FileHeader("x.png.exe"))) == Fail(ErrInvalidFileType)
  {
    assert LastIndex("photo.", '.') == 5;
    LastIndexAt("x.png.exe", '.', 5);
    assert ToLower("exe") == "exe";
  }
}
