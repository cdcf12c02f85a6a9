/**
  The answer normalisation of the quiz (app.py, lines 244-245): Python's
  `str.strip()` followed by `str.lower()`, restricted to ASCII.
  `strip()` removes the characters Python classifies as whitespace; in ASCII
  these are tab, line feed, vertical tab, form feed, carriage return, the four
  information separators 0x1C-0x1F and space. `lower()` maps 'A'-'Z' to 'a'-'z'.
 */
module Text {

  /** Python's whitespace test, on the ASCII range. */
  predicate IsSpace(c: char)
  {
    c == ' ' || c == '\t' || c == '\n' || c == '\r' ||
    c == '\U{000B}' || c == '\U{000C}' ||
    c == '\U{001C}' || c == '\U{001D}' || c == '\U{001E}' || c == '\U{001F}'
  }

  predicate AllSpace(s: string)
  {
    forall i :: 0 <= i < |s| ==> IsSpace(s[i])
  }

  predicate IsUpper(c: char)
  {
    'A' <= c <= 'Z'
  }

  function LowerChar(c: char): (d: char)
    ensures !IsUpper(d)
    ensures IsSpace(d) <==> IsSpace(c)
    ensures IsUpper(c) ==> d as int == c as int + 32
    ensures !IsUpper(c) ==> d == c
  {
    if IsUpper(c) then (c as int + 32) as char else c
  }

  /** `s.lower()`: every character lowered, nothing added or removed. */
  function Lower(s: string): (r: string)
    ensures |r| == |s|
    ensures forall i :: 0 <= i < |s| ==> r[i] == LowerChar(s[i])
  {
    if s == [] then [] else [LowerChar(s[0])] + Lower(s[1..])
  }

  /** The number of whitespace characters at the start of `s`. */
  function LeadingSpaces(s: string): (k: nat)
    ensures k <= |s|
    ensures forall i :: 0 <= i < k ==> IsSpace(s[i])
    ensures k < |s| ==> !IsSpace(s[k])
  {
    if s != [] && IsSpace(s[0]) then 1 + LeadingSpaces(s[1..]) else 0
  }

  /** The length of `s` without its trailing whitespace. */
  function TrailingStart(s: string): (k: nat)
    ensures k <= |s|
    ensures forall i :: k <= i < |s| ==> IsSpace(s[i])
    ensures 0 < k ==> !IsSpace(s[k - 1])
  {
    if s != [] && IsSpace(s[|s| - 1]) then TrailingStart(s[..|s| - 1]) else |s|
  }

  /** The whitespace run at the start of a string is determined by where the first non-space is. */
  lemma LeadingSpacesUnique(s: string, k: nat)
    requires k <= |s|
    requires forall i :: 0 <= i < k ==> IsSpace(s[i])
    requires k < |s| ==> !IsSpace(s[k])
    ensures LeadingSpaces(s) == k
  {
  }

  lemma TrailingStartUnique(s: string, k: nat)
    requires k <= |s|
    requires forall i :: k <= i < |s| ==> IsSpace(s[i])
    requires 0 < k ==> !IsSpace(s[k - 1])
    ensures TrailingStart(s) == k
  {
  }

  /** `s.lstrip()`: `s` without its leading whitespace. */
  function TrimStart(s: string): (r: string)
    ensures |r| <= |s|
    ensures r == [] || !IsSpace(r[0])
  {
    s[LeadingSpaces(s)..]
  }

  /** `s.rstrip()`: `s` without its trailing whitespace. */
  function TrimEnd(s: string): (r: string)
    ensures |r| <= |s|
    ensures r == [] || !IsSpace(r[|r| - 1])
  {
    s[..TrailingStart(s)]
  }

  /** `s.strip()`: `s` without the whitespace at either end. */
  function Strip(s: string): (r: string)
    ensures |r| <= |s|
    ensures r == [] || (!IsSpace(r[0]) && !IsSpace(r[|r| - 1]))
  {
    TrimEnd(TrimStart(s))
  }

  /** A string with no surrounding whitespace. */
  predicate Trimmed(s: string)
  {
    s == [] || (!IsSpace(s[0]) && !IsSpace(s[|s| - 1]))
  }

  /** `s.strip().lower()`, the form in which answers and translations are compared. */
  function Normalize(s: string): (r: string)
    ensures |r| <= |s|
    ensures Trimmed(r)
    ensures forall i :: 0 <= i < |r| ==> !IsUpper(r[i])
  {
    Lower(Strip(s))
  }

  /**
    The answer check of app.py, line 247. An accepted answer strips to the
    translation's length; text that strips to the translation, or differs from
    it only in ASCII case, is accepted.
   */
  function AnswerMatches(answer: string, translation: string): (r: bool)
    ensures r ==> |Strip(answer)| == |Strip(translation)|
    ensures Strip(answer) == Strip(translation) ==> r
    ensures Lower(answer) == Lower(translation) ==> r
  {
    LowerStripCommute(answer);
    LowerStripCommute(translation);
    Normalize(answer) == Normalize(translation)
  }

  lemma TrimStartOfPadded(pad: string, core: string)
    requires AllSpace(pad) && (core == [] || !IsSpace(core[0]))
    ensures TrimStart(pad + core) == core
  {
    var s := pad + core;
    LeadingSpacesUnique(s, |pad|);
    assert s[|pad|..] == core;
  }

  lemma TrimEndOfPadded(core: string, pad: string)
    requires AllSpace(pad) && (core == [] || !IsSpace(core[|core| - 1]))
    ensures TrimEnd(core + pad) == core
  {
    var s := core + pad;
    TrailingStartUnique(s, |core|);
    assert s[..|core|] == core;
  }

  /** Strip removes exactly the surrounding whitespace: any trimmed text padded with whitespace strips back to itself. */
  lemma StripOfPadded(before: string, core: string, after: string)
    requires AllSpace(before) && AllSpace(after) && Trimmed(core)
    ensures Strip(before + core + after) == core
  {
    if core == [] {
      assert before + core + after == (before + after) + [];
      AllSpaceConcat(before, after);
      TrimStartOfPadded(before + after, []);
    } else {
      assert before + core + after == before + (core + after);
      TrimStartOfPadded(before, core + after);
      TrimEndOfPadded(core, after);
    }
    assert TrimEnd([]) == [];
  }

  /** Any string is its stripped form with whitespace around it. */
  lemma StripDecomposes(s: string) returns (before: string, after: string)
    ensures AllSpace(before) && AllSpace(after)
    ensures s == before + Strip(s) + after
  {
    var k := LeadingSpaces(s);
    var t := s[k..];
    var m := TrailingStart(t);
    before, after := s[..k], t[m..];
    assert s == before + t;
    assert t == t[..m] + after;
  }

  lemma AllSpaceConcat(x: string, y: string)
    requires AllSpace(x) && AllSpace(y)
    ensures AllSpace(x + y)
  {
    forall i | 0 <= i < |x + y| ensures IsSpace((x + y)[i]) {
      if i < |x| { assert (x + y)[i] == x[i]; } else { assert (x + y)[i] == y[i - |x|]; }
    }
  }

  /** Surrounding whitespace never changes the stripped form. */
  lemma StripAbsorbsPadding(before: string, s: string, after: string)
    requires AllSpace(before) && AllSpace(after)
    ensures Strip(before + s + after) == Strip(s)
  {
    var b, a := StripDecomposes(s);
    var core := Strip(s);
    AllSpaceConcat(before, b);
    AllSpaceConcat(a, after);
    assert before + s + after == (before + b) + core + (a + after);
    StripOfPadded(before + b, core, a + after);
  }

  /** Text without surrounding whitespace is left as it is. */
  lemma StripTrimmed(s: string)
    requires Trimmed(s)
    ensures Strip(s) == s
  {
    assert [] + s + [] == s;
    StripOfPadded([], s, []);
  }

  /** Stripping twice is stripping once. */
  lemma StripIdempotent(s: string)
    ensures Strip(Strip(s)) == Strip(s)
  {
    StripTrimmed(Strip(s));
  }

  /** Lowering keeps every whitespace character where it was, so it commutes with each trim. */
  lemma LowerTrimStart(s: string)
    ensures Lower(TrimStart(s)) == TrimStart(Lower(s))
  {
    var k := LeadingSpaces(s);
    LeadingSpacesUnique(Lower(s), k);
    assert Lower(s[k..]) == Lower(s)[k..];
  }

  lemma LowerTrimEnd(s: string)
    ensures Lower(TrimEnd(s)) == TrimEnd(Lower(s))
  {
    var k := TrailingStart(s);
    TrailingStartUnique(Lower(s), k);
    assert Lower(s[..k]) == Lower(s)[..k];
  }

  /** `s.strip().lower()` equals `s.lower().strip()`. */
  lemma LowerStripCommute(s: string)
    ensures Lower(Strip(s)) == Strip(Lower(s))
  {
    LowerTrimStart(s);
    LowerTrimEnd(TrimStart(s));
  }

  /** Lowered text has no upper-case letters, and lowering it again changes nothing. */
  lemma LowerIdempotent(s: string)
    ensures forall i :: 0 <= i < |Lower(s)| ==> !IsUpper(Lower(s)[i])
    ensures Lower(Lower(s)) == Lower(s)
  {
  }

  /**
    The comparison ignores letter case and surrounding whitespace: an answer
    that equals the translation up to ASCII case, padded with any whitespace,
    is accepted.
   */
  lemma MatchIgnoresCaseAndPadding(before: string, answer: string, after: string, translation: string)
    requires AllSpace(before) && AllSpace(after)
    requires Lower(answer) == Lower(translation)
    ensures AnswerMatches(before + answer + after, translation)
  {
    StripAbsorbsPadding(before, answer, after);
    LowerStripCommute(answer);
    LowerStripCommute(translation);
  }

  /** The comparison is an equivalence on answers: reflexive, symmetric and transitive. */
  lemma MatchIsEquivalence(a: string, b: string, c: string)
    ensures AnswerMatches(a, a)
    ensures AnswerMatches(a, b) ==> AnswerMatches(b, a)
    ensures AnswerMatches(a, b) && AnswerMatches(b, c) ==> AnswerMatches(a, c)
  {
  }

  /** " House " is accepted for "house". */
  lemma HouseExample()
    ensures AnswerMatches(" House ", "house")
  {
    assert " " + "House" + " " == " House ";
    assert Lower("House") == Lower("house") by {
      assert Lower("House")[0] == 'h' == Lower("house")[0];
    }
    MatchIgnoresCaseAndPadding(" ", "House", " ", "house");
  }

  /** The comparison is exact otherwise: "car" is not accepted for "house". */
  lemma WrongAnswerExample()
    ensures !AnswerMatches("car", "house")
  {
    StripTrimmed("car");
    StripTrimmed("house");
    assert |Normalize("car")| != |Normalize("house")|;
  }
}
