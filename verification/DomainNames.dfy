/** Which spellings of a domain name have the same form. */
module DomainNames {
  import opened Text

  lemma LowerSlice(s: string, i: nat, j: nat)
    requires i <= j <= |s|
    ensures Lower(s)[i..j] == Lower(s[i..j])
  {
  }

  lemma {:induction false} TrimStartCommutes(s: string)
    ensures TrimStart(Lower(s)) == Lower(TrimStart(s))
  {
    if s != [] && IsWhitespace(s[0]) {
      TrimStartCommutes(s[1..]);
      LowerSlice(s, 1, |s|);
      assert Lower(s)[1..] == Lower(s)[1..|s|] && s[1..] == s[1..|s|];
    }
  }

  lemma {:induction false} TrimEndCommutes(s: string, drop: char -> bool)
    requires forall c :: drop(c) == drop(LowerChar(c))
    ensures TrimEnd(Lower(s), drop) == Lower(TrimEnd(s, drop))
  {
    if s != [] && drop(s[|s| - 1]) {
      TrimEndCommutes(s[..|s| - 1], drop);
      LowerSlice(s, 0, |s| - 1);
      assert Lower(s)[..|s| - 1] == Lower(s)[0..|s| - 1] && s[..|s| - 1] == s[0..|s| - 1];
    }
  }

  /** Names that differ only in the case of ASCII letters have the same form. */
  lemma CaseIsIrrelevant(u: string, v: string)
    requires EqualButForCase(u, v)
    ensures DomainForm(u) == DomainForm(v)
  {
    CaseIsAllThatIsLost(u, v);
    FormOfLower(u);
    FormOfLower(v);
  }

  lemma FormOfLower(s: string)
    ensures DomainForm(s) == TrimDots(Trim(Lower(s)))
  {
    TrimStartCommutes(s);
    TrimEndCommutes(TrimStart(s), IsWhitespace);
    TrimEndCommutes(Trim(s), c => c == '.');
  }

  predicate AllDots(s: string) {
    forall i :: 0 <= i < |s| ==> s[i] == '.'
  }

  /** What the form of a name is: the name without the blanks around it and then without the dots at its end,
      with its letters lowered. */
  lemma FormIsExact(s: string) returns (pre: string, body: string, dots: string, post: string)
    ensures s == pre + body + dots + post && AllBlank(pre) && AllBlank(post) && AllDots(dots)
    ensures Tight(body + dots) && (body != [] ==> body[|body| - 1] != '.')
    ensures DomainForm(s) == Lower(body)
  {
    pre, post := TrimIsExact(s);
    var t := Trim(s);
    TrimEndIsPrefix(t, c => c == '.');
    body := TrimDots(t);
    dots := DotsOf(t);
    ConcatAssoc(pre, body, dots);
  }

  lemma DotsOf(t: string) returns (dots: string)
    ensures t == TrimDots(t) + dots && AllDots(dots)
  {
    TrimEndSplits(t, c => c == '.');
    dots := Dropped(t, c => c == '.');
  }

  lemma {:induction false} TrimStartAppendDot(s: string)
    ensures TrimStart(s + ['.']) == TrimStart(s) + ['.']
  {
    if s != [] && IsWhitespace(s[0]) {
      assert (s + ['.'])[1..] == s[1..] + ['.'];
      TrimStartAppendDot(s[1..]);
    }
  }

  lemma TrimDotsAppendDot(s: string)
    ensures TrimDots(s + ['.']) == TrimDots(s)
  {
  }

  /** A further trailing dot is dropped, exactly unless it shields trailing whitespace. */
  lemma TrailingDotIsDropped(s: string)
    ensures DomainForm(s + ['.']) == DomainForm(s) <==> TrimStart(s) == [] || !IsWhitespace(s[|s| - 1])
  {
    var t := TrimStart(s);
    TrimStartIsSuffix(s);
    TrimStartAppendDot(s);
    TrimEndIsPrefix(t + ['.'], IsWhitespace);
    assert Trim(s + ['.']) == t + ['.'];
    TrimDotsAppendDot(t);
    TrimEndIsPrefix(t, IsWhitespace);
    if t != [] && IsWhitespace(t[|t| - 1]) {
      TrimEndIsPrefix(t, c => c == '.');
      assert |TrimDots(t)| == |t|;
      TrimEndIsPrefix(Trim(s), c => c == '.');
      assert |TrimDots(Trim(s))| <= |Trim(s)| < |t|;
    }
  }

  /** The trimmed name has a blank with only dots after it; the last character is not blank, so there is
      at least one such dot. */
  predicate ShieldsBlank(t: string) {
    exists i :: 0 <= i < |t| && IsWhitespace(t[i]) && forall j :: i < j < |t| ==> t[j] == '.'
  }

  lemma ShieldedBlankIsLast(t: string)
    ensures var d := TrimDots(t); ShieldsBlank(t) <==> d != [] && IsWhitespace(d[|d| - 1])
  {
    var d := TrimDots(t);
    TrimEndIsPrefix(t, c => c == '.');
    forall j | |d| <= j < |t| ensures t[j] == '.' { TrimEndDropsOnly(t, c => c == '.', j); }
    if i :| 0 <= i < |t| && IsWhitespace(t[i]) && forall j :: i < j < |t| ==> t[j] == '.' {
      assert |d| == i + 1;
    }
    if d != [] && IsWhitespace(d[|d| - 1]) {
      assert IsWhitespace(t[|d| - 1]);
    }
  }

  lemma FormOfForm(s: string)
    ensures var t := TrimDots(Trim(s));
            DomainForm(DomainForm(s)) == DomainForm(s) <==> t == [] || !IsWhitespace(t[|t| - 1])
  {
    var t := TrimDots(Trim(s));
    var v := Lower(t);
    TrimIsTight(s);
    TrimEndIsPrefix(Trim(s), c => c == '.');
    if t != [] {
      assert t[0] == Trim(s)[0] && !IsWhitespace(v[0]);
      assert TrimStart(v) == v;
      TrimEndIsPrefix(v, IsWhitespace);
      TrimEndIsPrefix(v, c => c == '.');
      if IsWhitespace(t[|t| - 1]) {
        TrimEndIsPrefix(Trim(v), c => c == '.');
        assert |DomainForm(v)| < |v|;
      } else {
        assert Lower(v) == v;
      }
    }
  }

  /** Taking the form twice changes nothing, exactly unless dots shield a blank before them. */
  lemma FormIsStable(s: string)
    ensures DomainForm(DomainForm(s)) == DomainForm(s) <==> !ShieldsBlank(Trim(s))
  {
    FormOfForm(s);
    ShieldedBlankIsLast(Trim(s));
  }

  /** The form is not stable in general: "a ." becomes "a ", which becomes "a". */
  lemma FormIsNotIdempotent()
    ensures DomainForm(DomainForm("a .")) != DomainForm("a .")
  {
  }
}
