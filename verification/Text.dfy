/** The string operations the rules language and the domain cache are built from. */
module Text {

  /** The Unicode `White_Space` property. */
  predicate IsWhitespace(c: char) {
    var n := c as int;
    || 0x9 <= n <= 0xD || n == 0x20 || n == 0x85 || n == 0xA0 || n == 0x1680 || 0x2000 <= n <= 0x200A
    || n == 0x2028 || n == 0x2029 || n == 0x202F || n == 0x205F || n == 0x3000
  }

  /** The code points of `White_Space` in the Unicode character database. */
  const WHITE_SPACE: set<int> := {
    0x9, 0xA, 0xB, 0xC, 0xD, 0x20, 0x85, 0xA0, 0x1680, 0x2000, 0x2001, 0x2002, 0x2003, 0x2004, 0x2005, 0x2006,
    0x2007, 0x2008, 0x2009, 0x200A, 0x2028, 0x2029, 0x202F, 0x205F, 0x3000}

  lemma WhitespaceIsTheTable(c: char)
    ensures IsWhitespace(c) <==> c as int in WHITE_SPACE
  {
  }

  // ---------------------------------------------------------------------------
  // Case
  // ---------------------------------------------------------------------------

  function LowerChar(c: char): char {
    if 'A' <= c <= 'Z' then ((c as int) + 32) as char else c
  }

  function UpperChar(c: char): char {
    if 'a' <= c <= 'z' then ((c as int) - 32) as char else c
  }

  function Lower(s: string): (r: string)
    ensures |r| == |s| && forall i :: 0 <= i < |s| ==> r[i] == LowerChar(s[i])
  {
    seq(|s|, i requires 0 <= i < |s| => LowerChar(s[i]))
  }

  function Upper(s: string): (r: string)
    ensures |r| == |s| && forall i :: 0 <= i < |s| ==> r[i] == UpperChar(s[i])
  {
    seq(|s|, i requires 0 <= i < |s| => UpperChar(s[i]))
  }

  /** The same character, or the two cases of one ASCII letter. */
  predicate SameLetter(c: char, d: char) {
    || c == d
    || (0x41 <= c as int <= 0x5A && d as int == c as int + 0x20)
    || (0x41 <= d as int <= 0x5A && c as int == d as int + 0x20)
  }

  predicate EqualButForCase(u: string, v: string) {
    |u| == |v| && forall i :: 0 <= i < |u| ==> SameLetter(u[i], v[i])
  }

  /** Lowering and raising forget the case of the ASCII letters and nothing else. */
  lemma CaseIsAllThatIsLost(u: string, v: string)
    ensures Lower(u) == Lower(v) <==> EqualButForCase(u, v)
    ensures Upper(u) == Upper(v) <==> EqualButForCase(u, v)
  {
    if Lower(u) == Lower(v) {
      forall i | 0 <= i < |u| ensures SameLetter(u[i], v[i]) { assert Lower(u)[i] == Lower(v)[i]; }
    }
    if Upper(u) == Upper(v) {
      forall i | 0 <= i < |u| ensures SameLetter(u[i], v[i]) { assert Upper(u)[i] == Upper(v)[i]; }
    }
  }

  // ---------------------------------------------------------------------------
  // Trimming
  // ---------------------------------------------------------------------------

  function TrimStart(s: string): string {
    if s != [] && IsWhitespace(s[0]) then TrimStart(s[1..]) else s
  }

  function TrimEnd(s: string, drop: char -> bool): string {
    if s != [] && drop(s[|s| - 1]) then TrimEnd(s[..|s| - 1], drop) else s
  }

  function Trim(s: string): string {
    TrimEnd(TrimStart(s), IsWhitespace)
  }

  function TrimDots(s: string): string {
    TrimEnd(s, c => c == '.')
  }

  /** The common form of domain names in rules and in DNS answers: trim, drop trailing dots, lower the
      ASCII letters. */
  function DomainForm(value: string): string {
    Lower(TrimDots(Trim(value)))
  }

  lemma {:induction false} TrimEndIsPrefix(s: string, drop: char -> bool)
    ensures TrimEnd(s, drop) <= s
    ensures TrimEnd(s, drop) == [] || !drop(TrimEnd(s, drop)[|TrimEnd(s, drop)| - 1])
    ensures TrimEnd(s, drop) == s <==> s == [] || !drop(s[|s| - 1])
  {
    if s != [] && drop(s[|s| - 1]) { TrimEndIsPrefix(s[..|s| - 1], drop); }
  }

  lemma {:induction false} TrimEndDropsOnly(s: string, drop: char -> bool, i: nat)
    requires |TrimEnd(s, drop)| <= i < |s|
    ensures drop(s[i])
  {
    if i < |s| - 1 { TrimEndDropsOnly(s[..|s| - 1], drop, i); }
  }

  lemma {:induction false} TrimStartIsSuffix(s: string)
    ensures |TrimStart(s)| <= |s| && TrimStart(s) == s[|s| - |TrimStart(s)|..]
    ensures TrimStart(s) == [] || !IsWhitespace(TrimStart(s)[0])
  {
    if s != [] && IsWhitespace(s[0]) { TrimStartIsSuffix(s[1..]); }
  }

  predicate AllBlank(s: string) {
    forall i :: 0 <= i < |s| ==> IsWhitespace(s[i])
  }

  lemma {:induction false} TrimStartDropsOnly(s: string)
    ensures |TrimStart(s)| <= |s| && AllBlank(s[..|s| - |TrimStart(s)|])
  {
    if s != [] && IsWhitespace(s[0]) {
      TrimStartDropsOnly(s[1..]);
      TrimStartIsSuffix(s[1..]);
      var n := |s| - |TrimStart(s)|;
      assert s[..n] == [s[0]] + s[1..][..n - 1];
    }
  }

  /** Nothing to trim at either end. */
  predicate Tight(s: string) {
    s != [] ==> !IsWhitespace(s[0]) && !IsWhitespace(s[|s| - 1])
  }

  lemma TrimTight(s: string)
    requires Tight(s)
    ensures Trim(s) == s
  {
  }

  lemma TrimIsTight(s: string)
    ensures Tight(Trim(s))
    ensures forall c :: c in Trim(s) ==> c in s
  {
    TrimStartIsSuffix(s);
    TrimEndIsPrefix(TrimStart(s), IsWhitespace);
    assert forall c :: c in Trim(s) ==> c in TrimStart(s);
  }

  /** What is taken off the end of a string. */
  function Dropped(s: string, drop: char -> bool): string
    requires |TrimEnd(s, drop)| <= |s|
  {
    s[|TrimEnd(s, drop)|..]
  }

  lemma TrimEndSplits(s: string, drop: char -> bool)
    ensures |TrimEnd(s, drop)| <= |s| && s == TrimEnd(s, drop) + Dropped(s, drop)
    ensures forall i :: 0 <= i < |Dropped(s, drop)| ==> drop(Dropped(s, drop)[i])
  {
    TrimEndIsPrefix(s, drop);
    var n := |TrimEnd(s, drop)|;
    forall i | n <= i < |s| ensures drop(s[i]) { TrimEndDropsOnly(s, drop, i); }
  }

  lemma TrimStartSplits(s: string)
    ensures |TrimStart(s)| <= |s| && s == s[..|s| - |TrimStart(s)|] + TrimStart(s)
    ensures AllBlank(s[..|s| - |TrimStart(s)|])
  {
    TrimStartDropsOnly(s);
    TrimStartIsSuffix(s);
  }

  /** Trimming takes blanks off both ends, all of them and nothing else. */
  lemma TrimIsExact(s: string) returns (pre: string, post: string)
    ensures s == pre + Trim(s) + post && AllBlank(pre) && AllBlank(post) && Tight(Trim(s))
  {
    var t := TrimStart(s);
    TrimStartSplits(s);
    TrimEndSplits(t, IsWhitespace);
    TrimIsTight(s);
    pre, post := s[..|s| - |t|], Dropped(t, IsWhitespace);
    ConcatAssoc(pre, Trim(s), post);
  }

  lemma ConcatAssoc<T>(a: seq<T>, b: seq<T>, c: seq<T>)
    ensures a + b + c == a + (b + c)
  {
  }

  // ---------------------------------------------------------------------------
  // Splitting and joining
  // ---------------------------------------------------------------------------

  /** All pieces between separators; a string without separator is one piece. */
  function Split(s: string, sep: char): (parts: seq<string>)
    ensures |parts| > 0
  {
    if s == [] then [[]]
    else
      var rest := Split(s[1..], sep);
      if s[0] == sep then [[]] + rest else [[s[0]] + rest[0]] + rest[1..]
  }

  function Join(parts: seq<string>, sep: char): string
    requires |parts| > 0
  {
    if |parts| == 1 then parts[0] else parts[0] + [sep] + Join(parts[1..], sep)
  }

  /** Splitting distributes over a separator, wherever the string is cut. */
  lemma {:induction false} SplitConcat(a: string, b: string, sep: char)
    ensures Split(a + [sep] + b, sep) == Split(a, sep) + Split(b, sep)
  {
    var s := a + [sep] + b;
    if a == [] {
      assert s[1..] == b;
    } else {
      assert s[1..] == a[1..] + [sep] + b;
      SplitConcat(a[1..], b, sep);
    }
  }

  lemma {:induction false} SplitWithout(a: string, sep: char)
    requires sep !in a
    ensures Split(a, sep) == [a]
  {
    if a != [] {
      SplitWithout(a[1..], sep);
      assert a == [a[0]] + a[1..];
    }
  }

  lemma {:induction false} SplitPieces(s: string, sep: char)
    ensures forall p :: p in Split(s, sep) ==> sep !in p
  {
    if s != [] { SplitPieces(s[1..], sep); }
  }

  lemma {:induction false} JoinSplit(s: string, sep: char)
    ensures Join(Split(s, sep), sep) == s
  {
    if s != [] {
      JoinSplit(s[1..], sep);
      var rest := Split(s[1..], sep);
      var parts := Split(s, sep);
      if s[0] == sep {
        assert parts[1..] == rest;
      } else {
        assert parts[1..] == rest[1..];
      }
    }
  }

  lemma {:induction false} JoinConcat(xs: seq<string>, ys: seq<string>, sep: char)
    requires |xs| > 0 && |ys| > 0
    ensures Join(xs + ys, sep) == Join(xs, sep) + [sep] + Join(ys, sep)
  {
    if |xs| == 1 {
      assert (xs + ys)[1..] == ys;
    } else {
      assert (xs + ys)[1..] == xs[1..] + ys;
      JoinConcat(xs[1..], ys, sep);
    }
  }
}
