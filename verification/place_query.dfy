/** Turning a free-text Japanese place name into the ordered list of
    geocoding queries that are tried one after another (`stripSuffix` and
    `buildCandidates` in services/weather.ts). */
module PlaceQuery {
  import opened JsString

  /** Prefecture-level suffixes. */
  const PrefectureSuffixes: set<char> := {'都', '道', '府', '県'}
  /** Municipal-level suffixes: city, ward, town, village. */
  const MunicipalSuffixes: set<char> := {'市', '区', '町', '村'}

  predicate EndsIn(s: string, suffixes: set<char>) {
    s != [] && s[|s| - 1] in suffixes
  }

  /** `s.replace(/(a|b|c|d)$/u, '')` for one-character alternatives: drops
      the last character when it is one of `suffixes`. */
  function DropFinal(s: string, suffixes: set<char>): string {
    if EndsIn(s, suffixes) then s[..|s| - 1] else s
  }

  /** Removes a trailing prefecture suffix, then a trailing municipal suffix
      from what is left. Both replacements run, so a name may lose two
      characters ("…市県" loses both). */
  function StripSuffix(s: string): (r: string)
    ensures |s| - 2 <= |r| <= |s| && r == s[..|r|]
    ensures r == s <==> !EndsIn(s, PrefectureSuffixes) && !EndsIn(s, MunicipalSuffixes)
    ensures |r| == |s| - 2 <==> EndsIn(s, PrefectureSuffixes) && EndsIn(s[..|s| - 1], MunicipalSuffixes)
    ensures EndsIn(s, MunicipalSuffixes) ==> r == s[..|s| - 1]
  {
    DropFinal(DropFinal(s, PrefectureSuffixes), MunicipalSuffixes)
  }

  /** The seven query variants built from a prefecture-like token and a
      city-like token, in the order they are tried. */
  function Variants(pref: string, city: string): (vs: seq<string>)
    ensures |vs| == 7
  {
    var prefStripped := StripSuffix(pref);
    var cityStripped := StripSuffix(city);
    [ city + " " + pref,
      cityStripped + " " + prefStripped,
      city,
      cityStripped,
      city + ", " + pref,
      cityStripped + ", " + prefStripped,
      pref + " " + city ]
  }

  /** The candidates pushed before de-duplication: the input is trimmed, its
      whitespace runs collapsed to one space, and it is split on spaces. Two
      or more parts give the seven variants of (first part, rest joined by
      spaces); otherwise the single part and its stripped form. */
  function Generated(inputRaw: string): (cs: seq<string>)
    ensures 2 <= |cs| <= 7
  {
    var input := Normalize(inputRaw);
    var parts := Split(input, ' ');
    if |parts| >= 2 then
      Variants(parts[0], Join(parts[1..], " "))
    else
      var one := if parts[0] != [] then parts[0] else input;
      [one, StripSuffix(one)]
  }

  /** `xs.filter(Boolean)` on strings: drops the empty ones. */
  function NonEmpty(xs: seq<string>): (r: seq<string>)
    ensures forall x :: x in r <==> x in xs && x != []
    ensures |r| <= |xs|
  {
    if xs == [] then []
    else
      var last := xs[|xs| - 1];
      assert xs == xs[..|xs| - 1] + [last];
      NonEmpty(xs[..|xs| - 1]) + (if last != [] then [last] else [])
  }

  /** The filter on a single entry. */
  lemma NonEmptySingle(x: string)
    ensures NonEmpty([x]) == if x != [] then [x] else []
  {
    assert [x][..0] == [];
  }

  /** The filter works entry by entry: filtering a concatenation is
      concatenating the filtered parts, so every kept entry stays in place
      relative to the others. */
  lemma {:induction false} NonEmptyAppend(xs: seq<string>, ys: seq<string>)
    ensures NonEmpty(xs + ys) == NonEmpty(xs) + NonEmpty(ys)
    decreases |ys|
  {
    if ys == [] {
      assert xs + ys == xs;
      assert NonEmpty(xs) + [] == NonEmpty(xs);
    } else {
      var init, last := ys[..|ys| - 1], ys[|ys| - 1];
      assert ys == init + [last];
      assert xs + ys == (xs + init) + [last];
      assert ((xs + init) + [last])[..|xs + init|] == xs + init;
      NonEmptyAppend(xs, init);
      var tail := if last != [] then [last] else [];
      assert NonEmpty(ys) == NonEmpty(init) + tail;
    }
  }

  predicate NoDuplicates(xs: seq<string>) {
    forall i, j :: 0 <= i < j < |xs| ==> xs[i] != xs[j]
  }

  /** `Array.from(new Set(xs))`: each value once, where it first occurs. */
  function Distinct(xs: seq<string>): (r: seq<string>)
    ensures forall x :: x in r <==> x in xs
    ensures |r| <= |xs|
  {
    if xs == [] then []
    else
      var last := xs[|xs| - 1];
      var d := Distinct(xs[..|xs| - 1]);
      assert xs == xs[..|xs| - 1] + [last];
      if last in d then d else d + [last]
  }

  /** No value comes out of the set twice. */
  lemma {:induction false} DistinctNoDuplicates(xs: seq<string>)
    ensures NoDuplicates(Distinct(xs))
  {
    if xs != [] {
      DistinctNoDuplicates(xs[..|xs| - 1]);
    }
  }

  /** The queries that are tried, in order. */
  function Candidates(inputRaw: string): seq<string> {
    Distinct(NonEmpty(Generated(inputRaw)))
  }

  /** At most seven queries, none of them empty. */
  lemma CandidatesBounded(inputRaw: string)
    ensures |Candidates(inputRaw)| <= 7
    ensures forall i :: 0 <= i < |Candidates(inputRaw)| ==> Candidates(inputRaw)[i] != []
  {
    var c := Candidates(inputRaw);
    assert forall i :: 0 <= i < |c| ==> c[i] in c;
  }

  /** `Array.from(new Set(candidates.filter(Boolean)))`: the candidates
      go through the filter and into the set one at a time. */
  method UniqueNonEmpty(candidates: seq<string>) returns (attempts: seq<string>)
    ensures attempts == Distinct(NonEmpty(candidates))
  {
    var seen: set<string> := {};
    attempts := [];
    for i := 0 to |candidates|
      invariant attempts == Distinct(NonEmpty(candidates[..i]))
      invariant forall c :: c in seen <==> c in attempts
    {
      var c := candidates[i];
      DistinctNonEmptyPrefix(candidates, i);
      if c != [] && c !in seen {
        attempts := attempts + [c];
        seen := seen + {c};
      }
    }
    assert candidates[..|candidates|] == candidates;
  }

  /** `buildCandidates`. */
  method BuildCandidates(inputRaw: string) returns (attempts: seq<string>)
    ensures attempts == Candidates(inputRaw)
  {
    var candidates := Generated(inputRaw);
    attempts := UniqueNonEmpty(candidates);
  }

  /** One more element through the filter and the set. */
  lemma DistinctNonEmptyStep(xs: seq<string>, c: string)
    ensures var d := Distinct(NonEmpty(xs));
      Distinct(NonEmpty(xs + [c])) == if c != [] && c !in d then d + [c] else d
  {
    var ys := xs + [c];
    assert ys[..|ys| - 1] == xs;
    var n := NonEmpty(xs);
    if c != [] {
      assert NonEmpty(ys) == n + [c];
      assert (n + [c])[..|n|] == n;
    } else {
      assert NonEmpty(ys) == n + [];
      assert n + [] == n;
    }
  }

  lemma DistinctNonEmptyPrefix(xs: seq<string>, i: nat)
    requires i < |xs|
    ensures var d := Distinct(NonEmpty(xs[..i]));
      Distinct(NonEmpty(xs[..i + 1])) == if xs[i] != [] && xs[i] !in d then d + [xs[i]] else d
  {
    assert xs[..i + 1] == xs[..i] + [xs[i]];
    DistinctNonEmptyStep(xs[..i], xs[i]);
  }

  // ---------------------------------------------------------------------
  // order of first occurrence

  function FirstIndex(xs: seq<string>, x: string): (k: nat)
    requires x in xs
    ensures k < |xs| && xs[k] == x && x !in xs[..k]
  {
    if xs[0] == x then 0
    else
      var k := 1 + FirstIndex(xs[1..], x);
      assert xs[..k] == [xs[0]] + xs[1..][..k - 1];
      k
  }

  lemma FirstIndexUnique(xs: seq<string>, x: string, k: nat)
    requires k < |xs| && xs[k] == x && x !in xs[..k]
    ensures FirstIndex(xs, x) == k
  {
  }

  lemma FirstIndexAppend(xs: seq<string>, x: string, y: string)
    requires y in xs
    ensures FirstIndex(xs + [x], y) == FirstIndex(xs, y)
  {
    var k := FirstIndex(xs, y);
    assert (xs + [x])[..k] == xs[..k];
    FirstIndexUnique(xs + [x], y, k);
  }

  /** `Distinct` lists the values in the order of their first occurrence. */
  lemma {:induction false} DistinctKeepsFirstOccurrenceOrder(xs: seq<string>)
    ensures forall i, j :: 0 <= i < j < |Distinct(xs)| ==>
      FirstIndex(xs, Distinct(xs)[i]) < FirstIndex(xs, Distinct(xs)[j])
    decreases |xs|
  {
    if xs != [] {
      var init, last := xs[..|xs| - 1], xs[|xs| - 1];
      assert xs == init + [last];
      var d := Distinct(init);
      DistinctKeepsFirstOccurrenceOrder(init);
      forall y | y in init
        ensures FirstIndex(xs, y) == FirstIndex(init, y)
      {
        FirstIndexAppend(init, last, y);
      }
      if last !in d {
        assert xs[..|init|] == init;
        FirstIndexUnique(xs, last, |init|);
        var r := d + [last];
        forall i, j | 0 <= i < j < |r|
          ensures FirstIndex(xs, r[i]) < FirstIndex(xs, r[j])
        {
          assert r[i] == d[i] && d[i] in d;
          if j == |d| {
            assert FirstIndex(xs, r[i]) == FirstIndex(init, d[i]) < |init|;
          } else {
            assert r[j] == d[j] && d[j] in d;
            assert FirstIndex(init, d[i]) < FirstIndex(init, d[j]);
          }
        }
      }
    }
  }

  /** The filter keeps each non-empty value as often as it occurs, and no
      empty one. */
  lemma {:induction false} NonEmptyCounts(xs: seq<string>)
    ensures forall x :: multiset(NonEmpty(xs))[x] == if x == [] then 0 else multiset(xs)[x]
    decreases |xs|
  {
    if xs != [] {
      var init, last := xs[..|xs| - 1], xs[|xs| - 1];
      assert xs == init + [last];
      NonEmptyCounts(init);
    }
  }

  /** The filter keeps the relative order in which the non-empty values
      first occur. */
  lemma {:induction false} NonEmptyKeepsFirstOccurrenceOrder(xs: seq<string>)
    ensures forall a, b :: a in NonEmpty(xs) && b in NonEmpty(xs) ==>
      (FirstIndex(NonEmpty(xs), a) < FirstIndex(NonEmpty(xs), b) <==> FirstIndex(xs, a) < FirstIndex(xs, b))
    decreases |xs|
  {
    if xs != [] {
      var init, last := xs[..|xs| - 1], xs[|xs| - 1];
      assert xs == init + [last];
      var n := NonEmpty(init);
      var r := NonEmpty(xs);
      NonEmptyKeepsFirstOccurrenceOrder(init);
      forall y | y in init
        ensures FirstIndex(xs, y) == FirstIndex(init, y)
      {
        FirstIndexAppend(init, last, y);
      }
      if last == [] {
        assert r == n + [];
        assert r == n;
      } else {
        assert r == n + [last];
        FirstIndexAfterAppend(n, last);
        if last !in init {
          assert xs[..|init|] == init;
          FirstIndexUnique(xs, last, |init|);
        }
      }
    }
  }

  /** Appending a value keeps the first index of every earlier value, and a
      new value is found at the end. */
  lemma FirstIndexAfterAppend(xs: seq<string>, x: string)
    ensures forall y :: y in xs ==> FirstIndex(xs + [x], y) == FirstIndex(xs, y)
    ensures x !in xs ==> FirstIndex(xs + [x], x) == |xs|
  {
    forall y | y in xs
      ensures FirstIndex(xs + [x], y) == FirstIndex(xs, y)
    {
      FirstIndexAppend(xs, x, y);
    }
    if x !in xs {
      assert (xs + [x])[..|xs|] == xs;
      FirstIndexUnique(xs + [x], x, |xs|);
    }
  }

  lemma {:induction false} DistinctHead(xs: seq<string>)
    requires xs != []
    ensures Distinct(xs) != [] && Distinct(xs)[0] == xs[0]
    decreases |xs|
  {
    if |xs| > 1 {
      var init := xs[..|xs| - 1];
      DistinctHead(init);
    }
  }

  lemma {:induction false} NonEmptyHead(xs: seq<string>)
    requires xs != [] && xs[0] != []
    ensures NonEmpty(xs) != [] && NonEmpty(xs)[0] == xs[0]
    decreases |xs|
  {
    if |xs| > 1 {
      var init := xs[..|xs| - 1];
      NonEmptyHead(init);
    }
  }

  // ---------------------------------------------------------------------
  // what the candidate list is

  /** After normalisation, splitting on a space gives the words of the
      input, or a single empty part when there are none. */
  lemma PartsAreWords(s: string)
    ensures Split(Normalize(s), ' ') == if Words(s) == [] then [[]] else Words(s)
  {
    var ws := Words(s);
    WordsAreWords(s);
    if ws != [] {
      forall i | 0 <= i < |ws|
        ensures ' ' !in ws[i]
      {
        assert IsSpace(' ');
      }
      SplitJoin(ws, ' ');
    }
  }

  /** The list has no empty query and no repeated query; it holds exactly
      the non-empty generated variants, in the order they were first
      generated, and so at most seven of them. */
  lemma CandidatesWellFormed(s: string)
    ensures var c := Candidates(s);
      && (forall q :: q in c ==> q != [])
      && NoDuplicates(c)
      && (forall q :: q in c <==> q in Generated(s) && q != [])
      && (forall i, j :: 0 <= i < j < |c| ==>
            FirstIndex(Generated(s), c[i]) < FirstIndex(Generated(s), c[j]))
      && |c| <= 7
  {
    var g := Generated(s);
    var n := NonEmpty(g);
    var c := Distinct(n);
    DistinctNoDuplicates(n);
    DistinctKeepsFirstOccurrenceOrder(n);
    NonEmptyKeepsFirstOccurrenceOrder(g);
    forall i, j | 0 <= i < j < |c|
      ensures FirstIndex(g, c[i]) < FirstIndex(g, c[j])
    {
      assert c[i] in c && c[j] in c;
      assert FirstIndex(n, c[i]) < FirstIndex(n, c[j]);
    }
  }

  /** With two or more words, the first word is the prefecture, the others
      joined by spaces are the city, and "city pref" is tried first. */
  lemma CandidatesOfSeveralWords(s: string)
    requires |Words(s)| >= 2
    ensures var ws := Words(s); var pref := ws[0]; var city := Join(ws[1..], " ");
      && Candidates(s) != []
      && Candidates(s)[0] == city + " " + pref
      && (forall q :: q in Candidates(s) <==> q in Variants(pref, city) && q != [])
      && |Candidates(s)| <= 7
  {
    PartsAreWords(s);
    var g := Generated(s);
    NonEmptyHead(g);
    DistinctHead(NonEmpty(g));
  }

  lemma DistinctNonEmptySingle(a: string)
    ensures Distinct(NonEmpty([a])) == if a == [] then [] else [a]
  {
    var e: seq<string> := [];
    assert NonEmpty(e) == [] && Distinct(NonEmpty(e)) == [];
    assert e + [a] == [a];
    DistinctNonEmptyStep(e, a);
  }

  lemma DistinctNonEmptyPair(a: string, b: string)
    ensures Distinct(NonEmpty([a, b])) ==
      if a == [] then (if b == [] then [] else [b])
      else if b == [] || b == a then [a]
      else [a, b]
  {
    DistinctNonEmptySingle(a);
    assert [a] + [b] == [a, b];
    DistinctNonEmptyStep([a], b);
  }

  /** A single word is tried as it is, then stripped when that changes it
      and leaves something; a blank input gives no candidate at all. */
  lemma CandidatesOfOneWord(s: string)
    requires |Words(s)| <= 1
    ensures Words(s) == [] ==> Candidates(s) == []
    ensures |Words(s)| == 1 ==>
      var w := Words(s)[0]; var stripped := StripSuffix(w);
      Candidates(s) == if stripped == w || stripped == [] then [w] else [w, stripped]
  {
    PartsAreWords(s);
    var g := Generated(s);
    DistinctNonEmptyPair(g[0], g[1]);
  }

  /** Inputs with the same words give the same queries, however much
      whitespace surrounds or separates them. */
  lemma CandidatesIgnoreExtraWhitespace(a: string, b: string)
    requires Words(a) == Words(b)
    ensures Candidates(a) == Candidates(b)
  {
  }

  lemma {:induction false} DistinctNonEmptyOfDistinct(xs: seq<string>)
    requires forall i :: 0 <= i < |xs| ==> xs[i] != []
    requires NoDuplicates(xs)
    ensures Distinct(NonEmpty(xs)) == xs
    decreases |xs|
  {
    if xs != [] {
      var init, last := xs[..|xs| - 1], xs[|xs| - 1];
      DistinctNonEmptyOfDistinct(init);
      DistinctNonEmptyStep(init, last);
      assert xs == init + [last];
    }
  }

  /** When the generated variants are all non-empty and all different,
      they are the candidates, in the same order. */
  lemma CandidatesWithoutRepeats(s: string, xs: seq<string>)
    requires Generated(s) == xs
    requires forall i :: 0 <= i < |xs| ==> xs[i] != []
    requires NoDuplicates(xs)
    ensures Candidates(s) == xs
  {
    DistinctNonEmptyOfDistinct(xs);
  }

  // ---------------------------------------------------------------------
  // worked examples

  lemma TokyoChiyodaGenerated()
    ensures Generated("東京都 千代田区") == Variants("東京都", "千代田区")
  {
    var s := "東京都 千代田区";
    assert s == Join(["東京都", "千代田区"], " ");
    WordsOfJoin(["東京都", "千代田区"]);
    PartsAreWords(s);
    assert Join(["千代田区"], " ") == "千代田区";
  }

  lemma TokyoChiyodaVariants()
    ensures Variants("東京都", "千代田区") ==
      [ "千代田区 東京都", "千代田 東京", "千代田区", "千代田",
        "千代田区, 東京都", "千代田, 東京", "東京都 千代田区" ]
  {
    assert StripSuffix("東京都") == "東京" by {
      assert EndsIn("東京都", PrefectureSuffixes);
      assert "東京都"[..2] == "東京";
    }
    assert StripSuffix("千代田区") == "千代田" by {
      assert EndsIn("千代田区", MunicipalSuffixes);
      assert "千代田区"[..3] == "千代田";
    }
    assert "千代田区" + " " + "東京都" == "千代田区 東京都";
    assert "千代田" + " " + "東京" == "千代田 東京";
    assert "千代田区" + ", " + "東京都" == "千代田区, 東京都";
    assert "千代田" + ", " + "東京" == "千代田, 東京";
    assert "東京都" + " " + "千代田区" == "東京都 千代田区";
  }

  lemma TokyoChiyodaVariantsDiffer(xs: seq<string>)
    requires xs ==
      [ "千代田区 東京都", "千代田 東京", "千代田区", "千代田",
        "千代田区, 東京都", "千代田, 東京", "東京都 千代田区" ]
    ensures NoDuplicates(xs) && forall i :: 0 <= i < |xs| ==> xs[i] != []
  {
  }

  /** "東京都 千代田区" yields all seven variants, "千代田区 東京都" first. */
  lemma TokyoChiyodaCandidates()
    ensures Candidates("東京都 千代田区") ==
      [ "千代田区 東京都", "千代田 東京", "千代田区", "千代田",
        "千代田区, 東京都", "千代田, 東京", "東京都 千代田区" ]
  {
    TokyoChiyodaGenerated();
    TokyoChiyodaVariants();
    var xs :=
      [ "千代田区 東京都", "千代田 東京", "千代田区", "千代田",
        "千代田区, 東京都", "千代田, 東京", "東京都 千代田区" ];
    TokyoChiyodaVariantsDiffer(xs);
    CandidatesWithoutRepeats("東京都 千代田区", xs);
  }

  /** Two words give the same candidates whatever whitespace surrounds and
      separates them. */
  lemma TwoWordsPadded(sp1: string, w1: string, sp2: string, w2: string, sp3: string)
    requires AllSpace(sp1) && AllSpace(sp2) && AllSpace(sp3) && sp2 != []
    requires w1 != [] && NoSpace(w1) && w2 != [] && NoSpace(w2)
    ensures Candidates(sp1 + w1 + sp2 + w2 + sp3) == Candidates(w1 + " " + w2)
  {
    WordsOfTwoPadded(sp1, w1, sp2, w2, sp3);
    WordsOfJoin([w1, w2]);
    assert Join([w1, w2], " ") == w1 + " " + w2;
    CandidatesIgnoreExtraWhitespace(sp1 + w1 + sp2 + w2 + sp3, w1 + " " + w2);
  }

  /** Irregular whitespace around and between the words, ideographic
      spaces (U+3000) included, changes nothing. */
  lemma TokyoChiyodaIrregularWhitespace()
    ensures Candidates("\U{3000}東京都\U{3000} 千代田区 ") == Candidates("東京都 千代田区")
  {
    assert "\U{3000}東京都\U{3000} 千代田区 " == "\U{3000}" + "東京都" + "\U{3000} " + "千代田区" + " ";
    assert "東京都 千代田区" == "東京都" + " " + "千代田区";
    TwoWordsPadded("\U{3000}", "東京都", "\U{3000} ", "千代田区", " ");
  }

  /** A single word that ends in no suffix is the only candidate. */
  lemma {:induction false} BareWordSingleCandidate(w: string)
    requires w != [] && NoSpace(w)
    requires !EndsIn(w, PrefectureSuffixes) && !EndsIn(w, MunicipalSuffixes)
    ensures Candidates(w) == [w]
  {
    WordsOfJoin([w]);
    assert Join([w], " ") == w;
    CandidatesOfOneWord(w);
  }

  /** "大阪" has no suffix to strip, so it is the only candidate. */
  lemma OsakaSingleCandidate()
    ensures Candidates("大阪") == ["大阪"]
  {
    BareWordSingleCandidate("大阪");
  }
}
