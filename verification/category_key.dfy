/**
  Category-key normalisation of `addToIndex` (node/movies-service.js:64-79).

  A category value becomes an index key by `trim()`, then `toLowerCase()`,
  then `replace('/', '-')`. JavaScript's `String.prototype.replace` with a
  string pattern replaces only the FIRST occurrence, so a value with two or
  more slashes keeps a slash in its key.

  The string functions below carry no postconditions of their own; what
  they compute is stated by the `...Spec` lemmas that follow them, so that
  reasoning about index keys elsewhere does not drag these facts along.
 */
module CategoryKey {
  import opened Wrappers
  import opened Movies

  /**
    The ASCII members of ECMAScript's WhiteSpace and LineTerminator sets,
    which `trim` strips: space and the controls tab through carriage return.
   */
  predicate IsWhitespace(c: char) {
    c == ' ' || '\t' <= c <= '\r'
  }

  predicate AllWhitespace(s: string) {
    forall i :: 0 <= i < |s| ==> IsWhitespace(s[i])
  }

  /** Neither the first nor the last character is whitespace. */
  predicate HasNoPadding(s: string) {
    s == [] || (!IsWhitespace(s[0]) && !IsWhitespace(s[|s| - 1]))
  }

  predicate IsUpper(c: char) {
    'A' <= c <= 'Z'
  }

  predicate HasNoUpper(s: string) {
    forall i :: 0 <= i < |s| ==> !IsUpper(s[i])
  }

  /** ASCII case mapping of `toLowerCase`. */
  function LowerChar(c: char): (r: char) {
    if IsUpper(c) then (c as int + 32) as char else c
  }

  /** Number of occurrences of `c` in `s`. */
  function Count(s: string, c: char): (n: nat)
    ensures n == 0 <==> c !in s
    ensures n <= |s|
  {
    if s == [] then 0 else (if s[0] == c then 1 else 0) + Count(s[1..], c)
  }

  /** Position of the first occurrence of `c` in `s`. */
  function FirstIndex(s: string, c: char): (i: nat)
    requires c in s
    ensures i < |s| && s[i] == c && c !in s[..i]
  {
    if s[0] == c then 0 else 1 + FirstIndex(s[1..], c)
  }

  /** `String.prototype.trimStart`. */
  function TrimStart(s: string): (r: string) {
    if s != [] && IsWhitespace(s[0]) then TrimStart(s[1..]) else s
  }

  /** `String.prototype.trimEnd`. */
  function TrimEnd(s: string): (r: string) {
    if s != [] && IsWhitespace(s[|s| - 1]) then TrimEnd(s[..|s| - 1]) else s
  }

  /** `String.prototype.trim`. */
  function Trim(s: string): (r: string) {
    TrimEnd(TrimStart(s))
  }

  /** `String.prototype.toLowerCase`, restricted to ASCII letters. */
  function ToLower(s: string): (r: string) {
    if s == [] then [] else [LowerChar(s[0])] + ToLower(s[1..])
  }

  /** `s.replace('/', '-')`: only the first slash is replaced. */
  function ReplaceFirstSlash(s: string): (r: string) {
    if s == [] then []
    else if s[0] == '/' then "-" + s[1..]
    else [s[0]] + ReplaceFirstSlash(s[1..])
  }

  /** The key a category value is filed under (lines 72 and 75). */
  function Normalize(s: string): (r: string) {
    ReplaceFirstSlash(ToLower(Trim(s)))
  }

  /**
    The index key of a field, or `None` when `addToIndex` ignores the
    movie: the field is missing (line 68) or normalises to "" (line 78).
   */
  function KeyOf(f: Field): (r: Option<string>) {
    match f
    case Absent => None
    case Text(s) =>
      var k := Normalize(s);
      if k == [] then None else Some(k)
  }

  function CategoryKeyOf(m: Movie, c: Category): (r: Option<string>) {
    KeyOf(FieldOf(m, c))
  }

  /** `trimStart` removes exactly the maximal whitespace prefix. */
  lemma {:induction false} TrimStartSpec(s: string)
    ensures var r := TrimStart(s);
      && |r| <= |s| && r == s[|s| - |r|..]
      && (forall i :: 0 <= i < |s| - |r| ==> IsWhitespace(s[i]))
      && (r != [] ==> !IsWhitespace(r[0]))
  {
    if s != [] && IsWhitespace(s[0]) {
      var t := TrimStart(s[1..]);
      TrimStartSpec(s[1..]);
      assert s[1..][|s| - 1 - |t|..] == s[|s| - |t|..];
      assert forall i :: 1 <= i < |s| - |t| ==> s[i] == s[1..][i - 1];
    }
  }

  /** `trimEnd` removes exactly the maximal whitespace suffix. */
  lemma {:induction false} TrimEndSpec(s: string)
    ensures var r := TrimEnd(s);
      && |r| <= |s| && r == s[..|r|]
      && (forall i :: |r| <= i < |s| ==> IsWhitespace(s[i]))
      && (r != [] ==> !IsWhitespace(r[|r| - 1]))
  {
    if s != [] && IsWhitespace(s[|s| - 1]) {
      TrimEndSpec(s[..|s| - 1]);
    }
  }

  /** `toLowerCase` maps every character on its own and keeps the length. */
  lemma {:induction false} ToLowerSpec(s: string)
    ensures |ToLower(s)| == |s|
    ensures forall i :: 0 <= i < |s| ==> ToLower(s)[i] == LowerChar(s[i])
  {
    if s != [] {
      ToLowerSpec(s[1..]);
    }
  }

  /** The first slash, and only the first, becomes a dash. */
  lemma {:induction false} ReplaceFirstSlashSpec(s: string)
    ensures |ReplaceFirstSlash(s)| == |s|
    ensures '/' !in s ==> ReplaceFirstSlash(s) == s
    ensures '/' in s ==> var i := FirstIndex(s, '/');
      && ReplaceFirstSlash(s)[i] == '-'
      && forall j :: 0 <= j < |s| && j != i ==> ReplaceFirstSlash(s)[j] == s[j]
  {
    if s != [] && s[0] != '/' {
      ReplaceFirstSlashSpec(s[1..]);
    }
  }

  lemma LowerCharFacts(c: char)
    ensures IsWhitespace(LowerChar(c)) <==> IsWhitespace(c)
    ensures !IsUpper(LowerChar(c))
    ensures LowerChar(c) == '/' <==> c == '/'
  {
  }

  lemma TrimHasNoPadding(s: string)
    ensures HasNoPadding(Trim(s))
  {
    TrimStartSpec(s);
    TrimEndSpec(TrimStart(s));
  }

  lemma LowerKeepsNoPadding(s: string)
    requires HasNoPadding(s)
    ensures HasNoPadding(ToLower(s))
  {
    ToLowerSpec(s);
    if s != [] {
      LowerCharFacts(s[0]);
      LowerCharFacts(s[|s| - 1]);
    }
  }

  /** A key has no surrounding whitespace and no capital letters (lines 72-75). */
  lemma NormalizeShape(s: string)
    ensures HasNoPadding(Normalize(s))
    ensures HasNoUpper(Normalize(s))
  {
    var t := Trim(s);
    TrimHasNoPadding(s);
    LowerKeepsNoPadding(t);
    var l := ToLower(t);
    ToLowerSpec(t);
    ReplaceFirstSlashSpec(l);
    forall i | 0 <= i < |l|
      ensures !IsUpper(ReplaceFirstSlash(l)[i])
    {
      LowerCharFacts(t[i]);
    }
  }

  /** Trimming leaves nothing exactly when the text is all whitespace. */
  lemma TrimEmptyIff(s: string)
    ensures Trim(s) == [] <==> AllWhitespace(s)
  {
    var t := TrimStart(s);
    TrimStartSpec(s);
    TrimEndSpec(t);
  }

  /**
    A field yields no key exactly when it is missing or blank (lines 67-79);
    a key it yields is trimmed and lower-case.
   */
  lemma KeyOfShape(f: Field)
    ensures KeyOf(f).None? <==> f.Absent? || AllWhitespace(f.value)
    ensures KeyOf(f).Some? ==> HasNoPadding(KeyOf(f).value) && HasNoUpper(KeyOf(f).value)
  {
    if f.Text? {
      var t := Trim(f.value);
      NormalizeShape(f.value);
      TrimEmptyIff(f.value);
      ToLowerSpec(t);
      ReplaceFirstSlashSpec(ToLower(t));
    }
  }

  lemma {:induction false} CountConcat(a: string, b: string, c: char)
    ensures Count(a + b, c) == Count(a, c) + Count(b, c)
  {
    if a == [] {
      assert a + b == b;
    } else {
      assert (a + b)[1..] == a[1..] + b;
      CountConcat(a[1..], b, c);
    }
  }

  lemma {:induction false} LowerPreservesSlashCount(s: string)
    ensures Count(ToLower(s), '/') == Count(s, '/')
  {
    if s != [] {
      LowerCharFacts(s[0]);
      assert ToLower(s)[1..] == ToLower(s[1..]);
      LowerPreservesSlashCount(s[1..]);
    }
  }

  lemma TrimPreservesSlashCount(s: string)
    ensures Count(Trim(s), '/') == Count(s, '/')
  {
    var a := TrimStart(s);
    var r := TrimEnd(a);
    TrimStartSpec(s);
    TrimEndSpec(a);
    assert s == s[..|s| - |a|] + a;
    assert a == r + a[|r|..];
    CountConcat(s[..|s| - |a|], a, '/');
    CountConcat(r, a[|r|..], '/');
    assert '/' !in s[..|s| - |a|];
    assert '/' !in a[|r|..];
  }

  lemma {:induction false} ReplaceFirstSlashCount(s: string)
    ensures Count(ReplaceFirstSlash(s), '/') == if '/' in s then Count(s, '/') - 1 else 0
  {
    if s != [] && s[0] != '/' {
      assert ReplaceFirstSlash(s)[1..] == ReplaceFirstSlash(s[1..]);
      ReplaceFirstSlashCount(s[1..]);
    } else if s != [] {
      assert ReplaceFirstSlash(s)[1..] == s[1..];
    }
  }

  /** Normalisation removes exactly one slash when there is one (line 75). */
  lemma NormalizeSlashCount(s: string)
    ensures Count(Normalize(s), '/') == if Count(s, '/') == 0 then 0 else Count(s, '/') - 1
  {
    TrimPreservesSlashCount(s);
    LowerPreservesSlashCount(Trim(s));
    ReplaceFirstSlashCount(ToLower(Trim(s)));
  }

  /** A string with no padding is left alone by `trim`. */
  lemma TrimUnpadded(s: string)
    requires HasNoPadding(s)
    ensures Trim(s) == s
  {
  }

  lemma LowerOfLowercase(s: string)
    requires HasNoUpper(s)
    ensures ToLower(s) == s
  {
    ToLowerSpec(s);
  }

  /** A value with no padding and no capitals only has its first slash replaced. */
  lemma NormalizeUnpaddedLower(s: string)
    requires HasNoPadding(s) && HasNoUpper(s)
    ensures Normalize(s) == ReplaceFirstSlash(s)
  {
    TrimUnpadded(s);
    LowerOfLowercase(s);
  }

  /**
    Normalising a key again changes it exactly when the original value had
    two or more slashes: only then does the key still contain a slash.
   */
  lemma NormalizeIdempotentIff(s: string)
    ensures Normalize(Normalize(s)) == Normalize(s) <==> Count(s, '/') <= 1
  {
    var t := Normalize(s);
    NormalizeShape(s);
    NormalizeSlashCount(s);
    NormalizeUnpaddedLower(t);
    ReplaceFirstSlashSpec(t);
    if '/' in t {
      var i := FirstIndex(t, '/');
      assert ReplaceFirstSlash(t)[i] != t[i];
    }
  }

  /** The smallest value whose key is not a fixed point of normalisation. */
  lemma TwoSlashesNotIdempotent()
    ensures Normalize("a//b") == "a-/b"
    ensures Normalize(Normalize("a//b")) == "a--b"
  {
    NormalizeTwoSlashes();
    NormalizeSlashAfterDash();
  }

  lemma NormalizeTwoSlashes()
    ensures Normalize("a//b") == "a-/b"
  {
    NormalizeUnpaddedLower("a//b");
  }

  lemma NormalizeSlashAfterDash()
    ensures Normalize("a-/b") == "a--b"
  {
    NormalizeUnpaddedLower("a-/b");
  }

  lemma {:induction false} TrimStartAllWhitespace(s: string)
    requires AllWhitespace(s)
    ensures TrimStart(s) == []
  {
    if s != [] {
      TrimStartAllWhitespace(s[1..]);
    }
  }

  lemma {:induction false} TrimStartPrefix(a: string, s: string)
    requires AllWhitespace(a)
    ensures TrimStart(a + s) == TrimStart(s)
  {
    if a == [] {
      assert a + s == s;
    } else {
      assert (a + s)[1..] == a[1..] + s;
      TrimStartPrefix(a[1..], s);
    }
  }

  lemma {:induction false} TrimEndSuffix(s: string, b: string)
    requires AllWhitespace(b)
    ensures TrimEnd(s + b) == TrimEnd(s)
  {
    if b == [] {
      assert s + b == s;
    } else {
      assert (s + b)[..|s + b| - 1] == s + b[..|b| - 1];
      TrimEndSuffix(s, b[..|b| - 1]);
    }
  }

  lemma {:induction false} TrimStartAppend(s: string, b: string)
    ensures AllWhitespace(s) ==> TrimStart(s + b) == TrimStart(b)
    ensures !AllWhitespace(s) ==> TrimStart(s + b) == TrimStart(s) + b
  {
    if s == [] {
      assert s + b == b;
    } else if IsWhitespace(s[0]) {
      assert (s + b)[1..] == s[1..] + b;
      TrimStartAppend(s[1..], b);
    }
  }

  /** Whitespace around a category value does not change its key (line 72). */
  lemma NormalizeIgnoresPadding(a: string, s: string, b: string)
    requires AllWhitespace(a) && AllWhitespace(b)
    ensures Normalize(a + s + b) == Normalize(s)
  {
    assert a + s + b == a + (s + b);
    TrimStartPrefix(a, s + b);
    TrimStartAppend(s, b);
    if AllWhitespace(s) {
      TrimStartAllWhitespace(s);
      TrimStartAllWhitespace(b);
    } else {
      TrimEndSuffix(TrimStart(s), b);
    }
  }

  lemma {:induction false} TrimStartLower(s: string)
    ensures TrimStart(ToLower(s)) == ToLower(TrimStart(s))
  {
    if s != [] {
      LowerCharFacts(s[0]);
      assert ToLower(s)[1..] == ToLower(s[1..]);
      TrimStartLower(s[1..]);
    }
  }

  lemma {:induction false} TrimEndLower(s: string)
    ensures TrimEnd(ToLower(s)) == ToLower(TrimEnd(s))
  {
    if s != [] {
      var init := s[..|s| - 1];
      LowerCharFacts(s[|s| - 1]);
      ToLowerSpec(s);
      ToLowerSpec(init);
      assert ToLower(s)[..|s| - 1] == ToLower(init);
      TrimEndLower(init);
    }
  }

  /** Values that differ only in ASCII letter case share a key (line 72). */
  lemma NormalizeIgnoresCase(s1: string, s2: string)
    requires ToLower(s1) == ToLower(s2)
    ensures Normalize(s1) == Normalize(s2)
  {
    TrimStartLower(s1);
    TrimStartLower(s2);
    TrimEndLower(TrimStart(s1));
    TrimEndLower(TrimStart(s2));
  }

  /** Case and surrounding whitespace variants of one category name meet in one key. */
  lemma ActionVariants()
    ensures Normalize("Action") == "action"
    ensures Normalize(" action ") == "action"
    ensures Normalize("action") == "action"
  {
    NormalizeAction();
    NormalizeCapitalAction();
    NormalizePaddedAction();
  }

  lemma NormalizeAction()
    ensures Normalize("action") == "action"
  {
    NormalizeUnpaddedLower("action");
  }

  lemma NormalizeCapitalAction()
    ensures Normalize("Action") == Normalize("action")
  {
    assert ToLower("Action") == ToLower("action");
    NormalizeIgnoresCase("Action", "action");
  }

  lemma NormalizePaddedAction()
    ensures Normalize(" action ") == Normalize("action")
  {
    assert " " + "action" + " " == " action ";
    NormalizeIgnoresPadding(" ", "action", " ");
  }
}
