/** Slugs of organizations (karakter/slugs.py): deriving, validating and suggesting them. */
module Slugs {
  import opened Texts

  predicate Plain(c: char) { 'a' <= c <= 'z' || IsDigit(c) }

  predicate AllPlain(s: string) { forall c :: c in s ==> Plain(c) }

  /** Lowercase letters and digits, separated by single hyphens. */
  ghost predicate Canonical(s: string) {
    && s != "" && Plain(s[0]) && Plain(s[|s| - 1])
    && (forall i :: 0 <= i < |s| ==> Plain(s[i]) || s[i] == '-')
    && (forall i :: 0 < i < |s| ==> Plain(s[i - 1]) || Plain(s[i]))
  }

  /** The pattern `[a-z0-9]+(?:-[a-z0-9]+)*`, matched against all of `s`. */
  ghost predicate MatchesPattern(s: string)
    decreases |s|
  {
    exists i :: 1 <= i <= |s| && AllPlain(s[..i]) && (i == |s| || (s[i] == '-' && MatchesPattern(s[i + 1..])))
  }

  lemma {:induction false} PatternIsCanonical(s: string)
    ensures MatchesPattern(s) <==> Canonical(s)
    decreases |s|
  {
    if MatchesPattern(s) {
      var i :| 1 <= i <= |s| && AllPlain(s[..i]) && (i == |s| || (s[i] == '-' && MatchesPattern(s[i + 1..])));
      MatchIsCanonical(s, i);
    }
    if Canonical(s) {
      var i := 1;
      while i < |s| && Plain(s[i])
        invariant 1 <= i <= |s| && forall k :: 0 <= k < i ==> Plain(s[k])
      {
        i := i + 1;
      }
      if i < |s| {
        assert Plain(s[i + 1]);
        PatternIsCanonical(s[i + 1..]);
      }
      assert AllPlain(s[..i]);
    }
  }

  lemma MatchIsCanonical(s: string, i: nat)
    requires 1 <= i <= |s| && AllPlain(s[..i]) && (i == |s| || (s[i] == '-' && MatchesPattern(s[i + 1..])))
    ensures Canonical(s)
    decreases |s|, 0
  {
    forall k | 0 <= k < i ensures Plain(s[k]) { assert s[k] == s[..i][k] && s[k] in s[..i]; }
    if i < |s| {
      PatternIsCanonical(s[i + 1..]);
      forall k | i < k < |s| ensures s[k] == s[i + 1..][k - i - 1] {}
    }
  }

  // --- deriving a slug ----------------------------------------------------------------------

  /** Without the leading characters a slug cannot have. */
  function DropOthers(s: string): (t: string)
    ensures |t| <= |s| && (t != "" ==> Plain(t[0]))
  {
    if s == "" || Plain(s[0]) then s else DropOthers(s[1..])
  }

  /** Every run of other characters becomes one hyphen. */
  function Collapse(s: string): string
    decreases |s|
  {
    if s == "" then "" else if Plain(s[0]) then [s[0]] + Collapse(s[1..]) else "-" + Collapse(DropOthers(s[1..]))
  }

  function StripHyphensLeft(s: string): string { if s != "" && s[0] == '-' then StripHyphensLeft(s[1..]) else s }

  function StripHyphensRight(s: string): string {
    if s != "" && s[|s| - 1] == '-' then StripHyphensRight(s[..|s| - 1]) else s
  }

  /** `slugify_name`, its lowercasing a parameter. */
  function Slugify(lower: string -> string, name: string): string {
    StripHyphensRight(StripHyphensLeft(Collapse(lower(name))))
  }

  /** The letters and digits of a string, in order. */
  function Plains(s: string): string {
    if s == "" then "" else (if Plain(s[0]) then [s[0]] else []) + Plains(s[1..])
  }

  /** The runs of letters and digits of a string, in order. */
  function Words(s: string): (words: seq<string>)
    ensures s != "" && Plain(s[0]) ==> words != []
  {
    if s == "" then []
    else if !Plain(s[0]) then Words(s[1..])
    else if |s| == 1 || !Plain(s[1]) then [[s[0]]] + Words(s[1..])
    else var rest := Words(s[1..]); [[s[0]] + rest[0]] + rest[1..]
  }

  lemma {:induction false} WordsDropOthers(s: string)
    ensures Words(DropOthers(s)) == Words(s)
  {
    if s != "" && !Plain(s[0]) { WordsDropOthers(s[1..]); }
  }

  lemma {:induction false} WordsCollapse(s: string)
    ensures Words(Collapse(s)) == Words(s)
    ensures s != "" ==> Collapse(s) != "" && (Plain(s[0]) <==> Plain(Collapse(s)[0]))
    decreases |s|
  {
    if s != "" {
      var rest := if Plain(s[0]) then s[1..] else DropOthers(s[1..]);
      WordsCollapse(rest);
      WordsDropOthers(s[1..]);
      assert Collapse(s)[1..] == Collapse(rest);
      if Plain(s[0]) && rest != "" { assert rest[0] == s[1] && Collapse(s)[1] == Collapse(rest)[0]; }
    }
  }

  lemma {:induction false} WordsHyphen(s: string)
    ensures Words(s + "-") == Words(s)
  {
    var all := s + "-";
    if s == "" {
      assert all == "-" && all[1..] == "";
    } else {
      assert all[1..] == s[1..] + "-" && all[0] == s[0];
      WordsHyphen(s[1..]);
      if |s| > 1 { assert all[1] == s[1]; }
    }
  }

  lemma {:induction false} WordsStripRight(s: string)
    ensures Words(StripHyphensRight(s)) == Words(s)
  {
    if s != "" && s[|s| - 1] == '-' {
      var front := s[..|s| - 1];
      assert s == front + "-";
      WordsHyphen(front);
      WordsStripRight(front);
    }
  }

  lemma {:induction false} WordsStripLeft(s: string)
    ensures Words(StripHyphensLeft(s)) == Words(s)
  {
    if s != "" && s[0] == '-' { WordsStripLeft(s[1..]); }
  }

  /** Letters, digits and single hyphens. */
  ghost predicate Hyphenated(s: string) {
    && (forall i :: 0 <= i < |s| ==> Plain(s[i]) || s[i] == '-')
    && (forall i :: 0 < i < |s| ==> Plain(s[i - 1]) || Plain(s[i]))
  }

  lemma {:induction false} PlainsDropOthers(s: string)
    ensures Plains(DropOthers(s)) == Plains(s)
  {
    if s != "" && !Plain(s[0]) { PlainsDropOthers(s[1..]); }
  }

  lemma {:induction false} CollapseOutcome(s: string)
    ensures Hyphenated(Collapse(s)) && Plains(Collapse(s)) == Plains(s)
    ensures s != "" ==> Collapse(s) != "" && (Plain(s[0]) ==> Collapse(s)[0] == s[0])
    decreases |s|
  {
    if s != "" {
      var rest := if Plain(s[0]) then s[1..] else DropOthers(s[1..]);
      CollapseOutcome(rest);
      var head := if Plain(s[0]) then s[0] else '-';
      assert Collapse(s) == [head] + Collapse(rest);
      assert Collapse(s)[1..] == Collapse(rest);
      forall i | 0 < i < |Collapse(s)| ensures Plain(Collapse(s)[i - 1]) || Plain(Collapse(s)[i]) {
        if i == 1 { assert rest != ""; } else { assert Collapse(s)[i] == Collapse(rest)[i - 1]; }
      }
      PlainsDropOthers(s[1..]);
    }
  }

  lemma {:induction false} PlainsSnoc(s: string, c: char)
    ensures Plains(s + [c]) == Plains(s) + if Plain(c) then [c] else []
  {
    var all, tail := s + [c], if Plain(c) then [c] else [];
    if s == "" {
      assert all == [c] && all[1..] == [];
      assert Plains(all) == tail + [] == tail;
    } else {
      var head := if Plain(s[0]) then [s[0]] else [];
      assert all[1..] == s[1..] + [c] && all[0] == s[0];
      PlainsSnoc(s[1..], c);
      assert Plains(all) == head + (Plains(s[1..]) + tail);
      assert head + (Plains(s[1..]) + tail) == (head + Plains(s[1..])) + tail;
    }
  }

  lemma StripLeftOutcome(s: string)
    requires Hyphenated(s)
    ensures var t := StripHyphensLeft(s); Hyphenated(t) && (t != "" ==> Plain(t[0])) && Plains(t) == Plains(s)
  {
    if s != "" && s[0] == '-' {
      var t := s[1..];
      if t != "" { assert Plain(s[1]) && t[0] == s[1]; }
      assert StripHyphensLeft(s) == t;
      forall i | 0 < i < |t| ensures Plain(t[i - 1]) || Plain(t[i]) { assert t[i - 1] == s[i] && t[i] == s[i + 1]; }
    }
  }

  lemma StripRightOutcome(s: string)
    requires Hyphenated(s) && (s != "" ==> Plain(s[0]))
    ensures var t := StripHyphensRight(s); (t == "" || Canonical(t)) && Plains(t) == Plains(s)
  {
    if s != "" && s[|s| - 1] == '-' {
      var t := s[..|s| - 1];
      assert t[|t| - 1] == s[|s| - 2] && Plain(s[|s| - 2]);
      PlainsSnoc(t, '-');
      assert s == t + ['-'];
      assert StripHyphensRight(s) == t;
    }
  }

  /** A name becomes the empty string or a canonical slug with the name's words, the runs of its
      letters and digits, in order; it is empty exactly when the name has none. */
  lemma SlugifyOutcome(lower: string -> string, name: string)
    ensures var slug := Slugify(lower, name);
            && (slug == "" || Canonical(slug))
            && Words(slug) == Words(lower(name)) && Plains(slug) == Plains(lower(name))
            && (slug == "" <==> Plains(lower(name)) == "")
  {
    CollapseOutcome(lower(name));
    StripLeftOutcome(Collapse(lower(name)));
    StripRightOutcome(StripHyphensLeft(Collapse(lower(name))));
    WordsCollapse(lower(name));
    WordsStripLeft(Collapse(lower(name)));
    WordsStripRight(StripHyphensLeft(Collapse(lower(name))));
  }

  lemma {:induction false} CollapseKeeps(s: string)
    requires Hyphenated(s)
    ensures Collapse(s) == s
  {
    if s != "" {
      var rest := s[1..];
      forall i | 0 < i < |rest| ensures Plain(rest[i - 1]) || Plain(rest[i]) {
        assert rest[i - 1] == s[i] && rest[i] == s[i + 1];
      }
      if !Plain(s[0]) && rest != "" { assert Plain(s[1]); }
      CollapseKeeps(rest);
    }
  }

  /** A canonical slug stays as it is, so deriving a slug twice is deriving it once. */
  lemma SlugifyKeepsCanonical(lower: string -> string, slug: string)
    requires Canonical(slug) && lower(slug) == slug
    ensures Slugify(lower, slug) == slug
  {
    CollapseKeeps(slug);
  }

  // --- validating ---------------------------------------------------------------------------

  /** `validate_slug`: a match up to `$`, which also stands before a final newline. */
  ghost predicate Validates(s: string) {
    s != "" && (MatchesPattern(s) || (s[|s| - 1] == '\n' && MatchesPattern(s[..|s| - 1])))
  }

  /** What is accepted is canonical or a canonical slug with a newline after it; of derived slugs,
      exactly those that are not empty. */
  lemma ValidatesExactly(s: string, lower: string -> string, name: string)
    ensures Validates(s) <==> Canonical(s) || (s != "" && s[|s| - 1] == '\n' && Canonical(s[..|s| - 1]))
    ensures Validates(Slugify(lower, name)) <==> Slugify(lower, name) != ""
  {
    PatternIsCanonical(s);
    if s != "" { PatternIsCanonical(s[..|s| - 1]); }
    SlugifyOutcome(lower, name);
    PatternIsCanonical(Slugify(lower, name));
  }

  lemma NewlineIsAccepted()
    ensures Validates("acme\n") && !Canonical("acme\n")
  {
    assert "acme\n"[..4] == "acme";
    PatternIsCanonical("acme");
  }

  // --- suggesting ---------------------------------------------------------------------------

  const PREFIXES := ["the-real-", "the-actual-", "the-one-true-"]

  /** How the database puts letter case aside, character by character. */
  type Folding = char -> string

  /** It leaves digits alone, which have no case. */
  ghost predicate Folds(fold: Folding) { forall c :: IsDigit(c) ==> fold(c) == [c] }

  function Fold(fold: Folding, s: string): string { if s == "" then "" else fold(s[0]) + Fold(fold, s[1..]) }

  /** `is_slug_taken` */
  predicate Taken(fold: Folding, taken: set<string>, slug: string) {
    exists t :: t in taken && Fold(fold, t) == Fold(fold, slug)
  }

  function Numbered(slug: string, n: nat): string { slug + "-" + Numeral(n) }

  /** The candidates in the order they are tried. */
  function Candidate(slug: string, i: nat): string {
    if i < |PREFIXES| then PREFIXES[i] + slug else Numbered(slug, i - |PREFIXES| + 2)
  }

  lemma {:induction false} FoldConcat(fold: Folding, a: string, b: string)
    ensures Fold(fold, a + b) == Fold(fold, a) + Fold(fold, b)
  {
    if a == "" {
      assert a + b == b;
    } else {
      assert (a + b)[1..] == a[1..] + b;
      FoldConcat(fold, a[1..], b);
    }
  }

  lemma {:induction false} FoldDigits(fold: Folding, s: string)
    requires Folds(fold) && forall c :: c in s ==> IsDigit(c)
    ensures Fold(fold, s) == s
  {
    if s != "" {
      assert s[0] in s;
      FoldDigits(fold, s[1..]);
    }
  }

  lemma FoldNumbered(fold: Folding, slug: string, n: nat)
    requires Folds(fold)
    ensures Fold(fold, Numbered(slug, n)) == Fold(fold, slug + "-") + Numeral(n)
  {
    FoldConcat(fold, slug + "-", Numeral(n));
    FoldDigits(fold, Numeral(n));
  }

  /** Different numbers give candidates that differ in more than case. */
  lemma NumberedInjective(fold: Folding, slug: string, a: nat, b: nat)
    requires Folds(fold) && Fold(fold, Numbered(slug, a)) == Fold(fold, Numbered(slug, b))
    ensures a == b
  {
    FoldNumbered(fold, slug, a);
    FoldNumbered(fold, slug, b);
    var head := Fold(fold, slug + "-");
    assert (head + Numeral(a))[|head|..] == Numeral(a) && (head + Numeral(b))[|head|..] == Numeral(b);
    NumeralInjective(a, b);
  }

  /** The taken slugs that none of the numbers tried so far has hit. */
  ghost function Left(fold: Folding, taken: set<string>, slug: string, counter: nat): set<string> {
    set t | t in taken && forall k: nat :: 2 <= k < counter ==> Fold(fold, t) != Fold(fold, Numbered(slug, k))
  }

  /** Every number that is taken hits a slug no smaller number hit: the numbers run out of slugs. */
  lemma OneFewerLeft(fold: Folding, taken: set<string>, slug: string, counter: nat)
    requires Folds(fold) && counter >= 2 && Taken(fold, taken, Numbered(slug, counter))
    ensures |Left(fold, taken, slug, counter + 1)| < |Left(fold, taken, slug, counter)|
  {
    var t :| t in taken && Fold(fold, t) == Fold(fold, Numbered(slug, counter));
    forall k: nat | 2 <= k < counter ensures Fold(fold, t) != Fold(fold, Numbered(slug, k)) {
      if Fold(fold, t) == Fold(fold, Numbered(slug, k)) { NumberedInjective(fold, slug, k, counter); }
    }
    var before, after := Left(fold, taken, slug, counter), Left(fold, taken, slug, counter + 1);
    assert t in before && t !in after && after <= before;
    assert before == after + (before - after);
    assert t in before - after;
  }

  /** The first number that is free: found within one more than there are slugs. */
  method FirstFreeNumber(fold: Folding, taken: set<string>, slug: string) returns (counter: nat)
    requires Folds(fold)
    ensures 2 <= counter <= |taken| + 2 && !Taken(fold, taken, Numbered(slug, counter))
    ensures forall k: nat :: 2 <= k < counter ==> Taken(fold, taken, Numbered(slug, k))
  {
    counter := 2;
    LeftAtFirst(fold, taken, slug);
    while Taken(fold, taken, Numbered(slug, counter))
      invariant counter >= 2 && |Left(fold, taken, slug, counter)| + counter <= |taken| + 2
      invariant forall k: nat :: 2 <= k < counter ==> Taken(fold, taken, Numbered(slug, k))
      decreases |Left(fold, taken, slug, counter)|
    {
      OneFewerLeft(fold, taken, slug, counter);
      counter := counter + 1;
    }
  }

  /** `suggest_slug`: the first candidate that is free, found within one more number than there
      are slugs, and canonical whenever the slug is. */
  method SuggestSlug(fold: Folding, taken: set<string>, slug: string) returns (suggestion: string, ghost i: nat)
    requires Folds(fold)
    ensures suggestion == Candidate(slug, i) && !Taken(fold, taken, suggestion)
    ensures i == 0 ==> suggestion == "the-real-" + slug
    ensures i == 1 ==> suggestion == "the-actual-" + slug
    ensures i == 2 ==> suggestion == "the-one-true-" + slug
    ensures i >= 3 ==> suggestion == slug + "-" + Numeral(i - 1)
    ensures forall j: nat :: j < i ==> Taken(fold, taken, Candidate(slug, j))
    ensures i <= |PREFIXES| + |taken|
    ensures Canonical(slug) ==> Canonical(suggestion)
  {
    for p := 0 to |PREFIXES|
      invariant forall j: nat :: j < p ==> Taken(fold, taken, Candidate(slug, j))
    {
      if !Taken(fold, taken, PREFIXES[p] + slug) {
        suggestion, i := PREFIXES[p] + slug, p;
        CandidateKeepsCanonical(slug, i);
        return;
      }
    }
    var counter := FirstFreeNumber(fold, taken, slug);
    suggestion, i := Numbered(slug, counter), |PREFIXES| + counter - 2;
    CandidateKeepsCanonical(slug, i);
  }

  lemma CandidateKeepsCanonical(slug: string, i: nat)
    ensures Canonical(slug) ==> Canonical(Candidate(slug, i))
  {
    if Canonical(slug) {
      if i < |PREFIXES| {
        PrefixKeepsCanonical(PREFIXES[i], slug);
      } else {
        NumberKeepsCanonical(slug, i - |PREFIXES| + 2);
      }
    }
  }

  lemma LeftAtFirst(fold: Folding, taken: set<string>, slug: string)
    ensures Left(fold, taken, slug, 2) == taken
  {
  }

  lemma PrefixKeepsCanonical(prefix: string, slug: string)
    requires prefix in PREFIXES && Canonical(slug)
    ensures Canonical(prefix + slug)
  {
    var s, n := prefix + slug, |prefix|;
    assert Plain(prefix[0]) && prefix[n - 1] == '-';
    forall i | 0 <= i < |s| ensures Plain(s[i]) || s[i] == '-' {
      if i >= n { assert s[i] == slug[i - n]; }
    }
    forall i | 0 < i < |s| ensures Plain(s[i - 1]) || Plain(s[i]) {
      if i > n { assert s[i] == slug[i - n] && s[i - 1] == slug[i - 1 - n]; }
    }
  }

  lemma NumberKeepsCanonical(slug: string, n: nat)
    requires Canonical(slug)
    ensures Canonical(Numbered(slug, n))
  {
    var s, d := Numbered(slug, n), Numeral(n);
    forall i | |slug| < i < |s| ensures Plain(s[i]) { assert s[i] == d[i - |slug| - 1] && d[i - |slug| - 1] in d; }
    forall i | 0 < i < |s| ensures Plain(s[i - 1]) || Plain(s[i]) {}
  }
}
