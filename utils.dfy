/** Character-wise string predicates of the format (src/utils.rs), the cover-path rule
    and the image signatures the cover checks compare against. */
module Utils {
  import opened Results

  newtype u8 = x: int | 0 <= x < 0x100

  // ---------------------------------------------------------------------------
  // `chars().any(..)` and the two predicates built on it
  // ---------------------------------------------------------------------------

  /** `s.chars().any(p)`: walks the string front to back and stops at the first hit. */
  function Any(s: string, p: char -> bool): (r: bool)
    ensures r <==> exists i :: 0 <= i < |s| && p(s[i])
  {
    if s == [] then false
    else p(s[0]) || Any(s[1..], p)
  }

  predicate IsNewline(c: char) {
    c == '\n' || c == '\r'
  }

  /** `char::is_ascii_hexdigit`: both letter cases are accepted. */
  predicate IsAsciiHexDigit(c: char) {
    '0' <= c <= '9' || 'a' <= c <= 'f' || 'A' <= c <= 'F'
  }

  /** A non-empty string without a line break: what every single-line field must be. */
  predicate SingleLine(s: string) {
    |s| > 0 && forall i :: 0 <= i < |s| ==> !IsNewline(s[i])
  }

  /** Every character is a hex digit (the empty string vacuously so). */
  predicate HexDigits(s: string) {
    forall i :: 0 <= i < |s| ==> IsAsciiHexDigit(s[i])
  }

  function StrIsEmptyOrHasNewlines(s: string): (r: bool)
    ensures r <==> !SingleLine(s)
  {
    |s| == 0 || Any(s, IsNewline)
  }

  function StrIsHex(s: string): (r: bool)
    ensures r <==> HexDigits(s)
  {
    !Any(s, c => !IsAsciiHexDigit(c))
  }

  /** `any` over a concatenation is `any` over either part. */
  lemma {:induction false} AnyConcat(s: string, t: string, p: char -> bool)
    ensures Any(s + t, p) == (Any(s, p) || Any(t, p))
  {
    if s == [] {
      assert s + t == t;
    } else {
      assert (s + t)[0] == s[0];
      assert (s + t)[1..] == s[1..] + t;
      AnyConcat(s[1..], t, p);
    }
  }

  /** The hex test is decided character by character. */
  lemma StrIsHexConcat(s: string, t: string)
    ensures StrIsHex(s + t) == (StrIsHex(s) && StrIsHex(t))
  {
    AnyConcat(s, t, c => !IsAsciiHexDigit(c));
  }

  /** So is the newline test, once neither part is empty. */
  lemma StrIsEmptyOrHasNewlinesConcat(s: string, t: string)
    requires s != [] && t != []
    ensures StrIsEmptyOrHasNewlines(s + t) == (StrIsEmptyOrHasNewlines(s) || StrIsEmptyOrHasNewlines(t))
  {
    AnyConcat(s, t, IsNewline);
  }

  /** Only `\n` and `\r` count as line breaks: tabs and other control characters do not. */
  lemma OnlyLineFeedAndCarriageReturnAreNewlines()
    ensures !StrIsEmptyOrHasNewlines("a\tb\0c")
    ensures StrIsEmptyOrHasNewlines("a\rb") && StrIsEmptyOrHasNewlines("a\nb")
    ensures StrIsEmptyOrHasNewlines("")
  {
  }

  /** The hex test accepts the empty string, so callers reject emptiness themselves. */
  lemma EmptyStringIsHex()
    ensures StrIsHex("") && StrIsHex("09afAF") && !StrIsHex("0x")
  {
  }

  // ---------------------------------------------------------------------------
  // Cover paths
  // ---------------------------------------------------------------------------

  /** Index of the last occurrence of `c` in `s`, or -1 when there is none. */
  function LastIndexOf(s: string, c: char): (r: int)
    ensures -1 <= r < |s|
    ensures r >= 0 ==> s[r] == c && forall j :: r < j < |s| ==> s[j] != c
    ensures r == -1 ==> forall j :: 0 <= j < |s| ==> s[j] != c
  {
    if s == [] then -1
    else if s[|s| - 1] == c then |s| - 1
    else LastIndexOf(s[..|s| - 1], c)
  }

  /** `Path::extension` of a one-segment path: the text after the last dot, provided that
      dot is not the first character (".png" has no extension) and the name is not "..". */
  function Extension(name: string): (r: Option<string>)
    ensures r.Some? ==>
              |r.value| < |name| - 1 &&
              name[|name| - |r.value| - 1] == '.' &&
              name[|name| - |r.value|..] == r.value &&
              '.' !in r.value
    ensures r.None? <==> name == ".." || forall j :: 0 < j < |name| ==> name[j] != '.'
  {
    if name == ".." then None
    else
      var i := LastIndexOf(name, '.');
      if i <= 0 then None else Some(name[i + 1..])
  }

  /** One plain path component: no directory part, neither "." nor "..". */
  predicate IsSingleSegment(p: string) {
    p != "" && p != "." && p != ".." && '/' !in p && '\\' !in p
  }

  /** `utils::path_is_invalid`: a cover path must be a single file name with an extension,
      so that it names an entry at the top of the archive. */
  predicate PathIsInvalid(p: string) {
    !IsSingleSegment(p) || Extension(p).None?
  }

  /** A path that is not invalid has an extension: the `unwrap()` calls on it never panic. */
  lemma ValidPathHasExtension(p: string)
    requires !PathIsInvalid(p)
    ensures Extension(p).Some? && '/' !in p
  {
  }

  /** The two names the cover setters use are valid, with the expected extensions; a nested
      path is refused whatever its extension. */
  lemma CoverFileNames()
    ensures !PathIsInvalid("cover.png") && Extension("cover.png") == Some("png")
    ensures !PathIsInvalid("cover.jpg") && Extension("cover.jpg") == Some("jpg")
    ensures PathIsInvalid("subdirectory/cover.jpg")
    ensures PathIsInvalid(".png") && PathIsInvalid("cover")
  {
    assert "cover.png"[5] == '.';
    assert "cover.png"[..8] == "cover.pn";
    assert "cover.png"[..7] == "cover.p";
    assert "cover.png"[..6] == "cover.";
    assert LastIndexOf("cover.png", '.') == 5;
    assert "cover.jpg"[5] == '.';
    assert "cover.jpg"[..8] == "cover.jp";
    assert "cover.jpg"[..7] == "cover.j";
    assert "cover.jpg"[..6] == "cover.";
    assert LastIndexOf("cover.jpg", '.') == 5;
    assert "subdirectory/cover.jpg"[12] == '/';
    assert "cover"[1..] == "over";
  }

  // ---------------------------------------------------------------------------
  // Image signatures
  // ---------------------------------------------------------------------------

  const PNG_MAGIC_NUMBER_LEN: nat := 8
  const PNG_MAGIC_NUMBER: seq<u8> := [0x89, 0x50, 0x4E, 0x47, 0x0D, 0x0A, 0x1A, 0x0A]

  const JPG_MAGIC_NUMBER_LEN: nat := 3
  const JPG_MAGIC_NUMBER: seq<u8> := [0xFF, 0xD8, 0xFF]

  /** `data.len() >= sig.len() && constant_time_eq(&data[..sig.len()], sig)`, the timing
      aside: the data starts with the signature. */
  predicate HasSignature(data: seq<u8>, sig: seq<u8>) {
    |data| >= |sig| && data[..|sig|] == sig
  }

  /** No byte string starts with both signatures (their first bytes are 0x89 and 0xFF),
      so testing PNG before JPEG never changes which one is found. */
  lemma SignaturesDisjoint(data: seq<u8>)
    ensures !(HasSignature(data, PNG_MAGIC_NUMBER) && HasSignature(data, JPG_MAGIC_NUMBER))
  {
    if HasSignature(data, PNG_MAGIC_NUMBER) {
      assert data[..3][0] == data[..8][0] == 0x89;
    }
  }
}
