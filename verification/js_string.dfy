/** The JavaScript string operations that place-name normalisation relies on:
    `String.prototype.trim`, `replace(/\s+/g, ' ')`, `split(' ')` and
    `Array.prototype.join`, over strings of Unicode scalar values (`char`).

    `Words(s)` is the reference view of a string: its maximal runs of
    non-whitespace characters, in order. The main results are that trimming
    and collapsing whitespace yields exactly the words joined by single
    spaces (`Normalize`), and that splitting a join on its
    separator gives back the parts (`SplitJoin`). */
module JsString {

  /** The characters matched by `\s` in a JavaScript regular expression, which
      are also the ones `trim` removes: ECMAScript WhiteSpace (tab, vertical
      tab, form feed, space, no-break space, the byte order mark and the
      space separators, U+3000 IDEOGRAPHIC SPACE among them) and
      LineTerminator. */
  predicate IsSpace(c: char) {
    || c == '\t' || c == '\n' || c == '\U{000B}' || c == '\U{000C}' || c == '\r'
    || c == ' ' || c == '\U{00A0}' || c == '\U{1680}'
    || ('\U{2000}' <= c <= '\U{200A}')
    || c == '\U{2028}' || c == '\U{2029}' || c == '\U{202F}' || c == '\U{205F}'
    || c == '\U{3000}' || c == '\U{FEFF}'
  }

  predicate AllSpace(s: string) {
    forall i :: 0 <= i < |s| ==> IsSpace(s[i])
  }

  predicate NoSpace(s: string) {
    forall i :: 0 <= i < |s| ==> !IsSpace(s[i])
  }

  /** Neither the first nor the last character is whitespace. */
  predicate Trimmed(s: string) {
    s == [] || (!IsSpace(s[0]) && !IsSpace(s[|s| - 1]))
  }

  /** Removes the leading whitespace. */
  function TrimStart(s: string): (r: string)
    ensures |r| <= |s|
    ensures r == [] || !IsSpace(r[0])
    decreases |s|
  {
    if s != [] && IsSpace(s[0]) then TrimStart(s[1..]) else s
  }

  /** What `TrimStart` removes is whitespace, and what it keeps is a suffix. */
  lemma {:induction false} TrimStartSuffix(s: string)
    ensures var r := TrimStart(s); r == s[|s| - |r|..] && AllSpace(s[..|s| - |r|])
    decreases |s|
  {
    if s != [] && IsSpace(s[0]) {
      var r := TrimStart(s[1..]);
      TrimStartSuffix(s[1..]);
      assert s[..|s| - |r|] == [s[0]] + s[1..][..|s| - 1 - |r|];
    }
  }

  /** Removes the trailing whitespace. */
  function TrimEnd(s: string): (r: string)
    ensures |r| <= |s| && r == s[..|r|]
    ensures AllSpace(s[|r|..])
    ensures r == [] || !IsSpace(r[|r| - 1])
    decreases |s|
  {
    if s != [] && IsSpace(s[|s| - 1]) then
      var r := TrimEnd(s[..|s| - 1]);
      assert s[|r|..] == s[..|s| - 1][|r|..] + [s[|s| - 1]];
      r
    else
      s
  }

  /** `String.prototype.trim`. */
  function Trim(s: string): (r: string)
    ensures Trimmed(r)
  {
    var t := TrimStart(s);
    var r := TrimEnd(t);
    assert r != [] ==> r[0] == t[0];
    r
  }

  /** What `trim` keeps is a slice of the input, and all it removes, before
      and after that slice, is whitespace. */
  lemma TrimIsSlice(s: string)
    ensures var r := Trim(s);
      exists i :: 0 <= i <= |s| - |r| && r == s[i..i + |r|] && AllSpace(s[..i]) && AllSpace(s[i + |r|..])
  {
    var t := TrimStart(s);
    var r := TrimEnd(t);
    TrimStartSuffix(s);
    var i := |s| - |t|;
    assert s[i..] == t;
    assert s[i + |r|..] == t[|r|..];
    assert r == s[i..i + |r|];
  }

  /** `s.replace(/\s+/g, ' ')`: every maximal run of whitespace becomes one
      space. */
  function Collapse(s: string): string
    decreases |s|
  {
    if s == [] then []
    else if IsSpace(s[0]) then " " + Collapse(TrimStart(s[1..]))
    else [s[0]] + Collapse(s[1..])
  }

  /** The number of leading non-whitespace characters. */
  function WordLen(s: string): (n: nat)
    ensures n <= |s| && NoSpace(s[..n])
    ensures n < |s| ==> IsSpace(s[n])
    decreases |s|
  {
    if s == [] || IsSpace(s[0]) then 0
    else
      var n := 1 + WordLen(s[1..]);
      assert s[..n] == [s[0]] + s[1..][..n - 1];
      n
  }

  /** The maximal runs of non-whitespace characters of `s`, in order. */
  function Words(s: string): (ws: seq<string>)
    decreases |s|
  {
    var t := TrimStart(s);
    if t == [] then []
    else
      var n := WordLen(t);
      [t[..n]] + Words(t[n..])
  }

  /** Every word is non-empty and holds no whitespace. */
  lemma {:induction false} WordsAreWords(s: string)
    ensures forall i :: 0 <= i < |Words(s)| ==> Words(s)[i] != [] && NoSpace(Words(s)[i])
    decreases |s|
  {
    var t := TrimStart(s);
    if t != [] {
      var n := WordLen(t);
      WordsAreWords(t[n..]);
    }
  }

  /** `parts.join(sep)`. */
  function Join(parts: seq<string>, sep: string): string {
    if parts == [] then []
    else if |parts| == 1 then parts[0]
    else parts[0] + sep + Join(parts[1..], sep)
  }

  /** `s.split(d)` for a one-character separator: the pieces between
      occurrences of `d`, empty pieces included (so `"".split(d)` is `[""]`). */
  function Split(s: string, d: char): (parts: seq<string>)
    ensures |parts| >= 1
    decreases |s|
  {
    if s == [] then [[]]
    else
      var rest := Split(s[1..], d);
      if s[0] == d then [[]] + rest else [[s[0]] + rest[0]] + rest[1..]
  }

  // ---------------------------------------------------------------------
  // split and join are inverse to each other

  /** A character other than the separator extends the first piece. */
  lemma SplitCons(c: char, x: string, d: char)
    requires c != d
    ensures Split([c] + x, d) == [[c] + Split(x, d)[0]] + Split(x, d)[1..]
  {
    assert ([c] + x)[1..] == x;
  }

  lemma {:induction false} SplitPrefix(w: string, s: string, d: char)
    requires d !in w
    ensures Split(w + s, d) == [w + Split(s, d)[0]] + Split(s, d)[1..]
    decreases |w|
  {
    var rest := Split(s, d);
    if w != [] {
      SplitPrefix(w[1..], s, d);
      var r2 := Split(w[1..] + s, d);
      assert w + s == [w[0]] + (w[1..] + s);
      SplitCons(w[0], w[1..] + s, d);
      assert [w[0]] + (w[1..] + rest[0]) == w + rest[0];
    } else {
      assert w + s == s && w + rest[0] == rest[0];
      assert rest == [rest[0]] + rest[1..];
    }
  }

  /** Splitting parts joined by `d` gives the parts back, provided no part
      contains `d`. */
  lemma {:induction false} SplitJoin(parts: seq<string>, d: char)
    requires |parts| >= 1
    requires forall i :: 0 <= i < |parts| ==> d !in parts[i]
    ensures Split(Join(parts, [d]), d) == parts
    decreases |parts|
  {
    if |parts| == 1 {
      SplitPrefix(parts[0], [], d);
      assert parts[0] + [] == parts[0];
    } else {
      var tail := Join(parts[1..], [d]);
      SplitJoin(parts[1..], d);
      SplitPrefix(parts[0], [d] + tail, d);
      assert ([d] + tail)[1..] == tail;
      var st := Split([d] + tail, d);
      assert st == [[]] + parts[1..];
      assert st[0] == [] && st[1..] == parts[1..];
      assert Join(parts, [d]) == parts[0] + ([d] + tail);
      assert parts[0] + st[0] == parts[0];
      assert parts == [parts[0]] + parts[1..];
    }
  }

  /** Joining the pieces of a split with the separator gives the string back. */
  lemma {:induction false} JoinSplit(s: string, d: char)
    ensures Join(Split(s, d), [d]) == s
    decreases |s|
  {
    if s != [] {
      var rest := Split(s[1..], d);
      JoinSplit(s[1..], d);
      if s[0] == d {
        assert Split(s, d) == [[]] + rest;
        assert ([[]] + rest)[1..] == rest;
        assert s == [d] + s[1..];
      } else {
        var parts := [[s[0]] + rest[0]] + rest[1..];
        assert Split(s, d) == parts;
        if |rest| == 1 {
          assert s == [s[0]] + rest[0];
        } else {
          assert rest == [rest[0]] + rest[1..];
          assert Join(rest, [d]) == rest[0] + [d] + Join(rest[1..], [d]);
          assert parts[1..] == rest[1..];
          assert s == [s[0]] + s[1..];
        }
      }
    }
  }

  // ---------------------------------------------------------------------
  // trimming and collapsing whitespace keeps exactly the words

  lemma AppendSlices(t: string, u: string, n: nat)
    requires n <= |t|
    ensures (t + u)[..n] == t[..n] && (t + u)[n..] == t[n..] + u
  {
  }

  lemma AllSpaceTrimStart(s: string)
    requires AllSpace(s)
    ensures TrimStart(s) == []
  {
  }

  lemma {:induction false} TrimStartAppend(x: string, y: string)
    requires TrimStart(x) != []
    ensures TrimStart(x + y) == TrimStart(x) + y
    decreases |x|
  {
    if IsSpace(x[0]) {
      assert (x + y)[1..] == x[1..] + y;
      TrimStartAppend(x[1..], y);
    }
  }

  lemma {:induction false} WordLenAppend(x: string, y: string)
    requires y == [] || IsSpace(y[0])
    ensures WordLen(x + y) == WordLen(x)
    decreases |x|
  {
    if x == [] {
      assert x + y == y;
    } else if !IsSpace(x[0]) {
      assert (x + y)[1..] == x[1..] + y;
      WordLenAppend(x[1..], y);
    }
  }

  /** A string that starts with a word: that word, then the words after it. */
  lemma WordsStep(s: string)
    requires s != [] && !IsSpace(s[0])
    ensures WordLen(s) >= 1
    ensures Words(s) == [s[..WordLen(s)]] + Words(s[WordLen(s)..])
  {
    assert TrimStart(s) == s;
  }

  lemma WordsTrimStart(s: string)
    ensures Words(TrimStart(s)) == Words(s)
  {
    var t := TrimStart(s);
    assert TrimStart(t) == t;
  }

  lemma WordsStepAppendSpace(t: string, sp: string)
    requires AllSpace(sp)
    requires t != [] && !IsSpace(t[0])
    requires Words(t[WordLen(t)..] + sp) == Words(t[WordLen(t)..])
    ensures Words(t + sp) == Words(t)
  {
    WordLenAppend(t, sp);
    WordsStep(t);
    WordsStep(t + sp);
    AppendSlices(t, sp, WordLen(t));
  }

  /** Trailing whitespace does not change the words. */
  lemma {:induction false} WordsAppendSpace(x: string, sp: string)
    requires AllSpace(sp)
    ensures Words(x + sp) == Words(x)
    decreases |x|
  {
    var t := TrimStart(x);
    if t == [] {
      TrimStartSuffix(x);
      assert x[..|x|] == x;
      assert AllSpace(x + sp);
      AllSpaceTrimStart(x + sp);
    } else {
      TrimStartAppend(x, sp);
      WordsTrimStart(x);
      WordsTrimStart(x + sp);
      WordsStep(t);
      WordsAppendSpace(t[WordLen(t)..], sp);
      WordsStepAppendSpace(t, sp);
    }
  }

  lemma WordsTrimEnd(s: string)
    ensures Words(TrimEnd(s)) == Words(s)
  {
    var r := TrimEnd(s);
    var sp := s[|r|..];
    assert s == r + sp;
    WordsAppendSpace(r, sp);
  }

  /** Collapsing a string that starts with a word copies the word. */
  lemma {:induction false} CollapseWord(s: string, n: nat)
    requires n <= |s| && NoSpace(s[..n])
    ensures Collapse(s) == s[..n] + Collapse(s[n..])
    decreases n
  {
    if n > 0 {
      assert !IsSpace(s[..n][0]);
      CollapseWord(s[1..], n - 1);
      assert s[1..][..n - 1] == s[..n][1..];
      assert s[..n] == [s[0]] + s[1..][..n - 1];
      assert s[1..][n - 1..] == s[n..];
    }
  }

  /** In a trimmed string, what follows a whitespace character, less its
      leading whitespace, is a shorter trimmed string that is not empty. */
  lemma TrimmedAfterSpace(t: string, k: nat)
    requires Trimmed(t) && k < |t| && IsSpace(t[k])
    ensures var u := TrimStart(t[k + 1..]); u != [] && Trimmed(u) && |u| < |t|
  {
    var v := t[k + 1..];
    var u := TrimStart(v);
    TrimStartSuffix(v);
    assert k != |t| - 1;
    assert v[|v| - 1] == t[|t| - 1];
    assert !IsSpace(v[..|v|][|v| - 1]);
    assert u != [];
    assert u[|u| - 1] == v[|v| - 1];
  }

  /** Whitespace at the front collapses to one space and hides no word. */
  lemma SpaceStep(s: string)
    requires s != [] && IsSpace(s[0])
    ensures Collapse(s) == " " + Collapse(TrimStart(s[1..]))
    ensures Words(s) == Words(TrimStart(s[1..]))
  {
    WordsTrimStart(s);
    WordsTrimStart(s[1..]);
  }

  lemma JoinCons(w: string, ws: seq<string>, sep: string)
    requires ws != []
    ensures Join([w] + ws, sep) == w + sep + Join(ws, sep)
  {
    assert ([w] + ws)[1..] == ws;
  }

  lemma CollapseLastWord(t: string)
    requires t != [] && !IsSpace(t[0]) && WordLen(t) == |t|
    ensures Collapse(t) == Join(Words(t), " ")
  {
    WordsStep(t);
    CollapseWord(t, |t|);
    assert t[..|t|] == t;
    assert Words(t[|t|..]) == [];
  }

  lemma SpaceStepAt(t: string, k: nat)
    requires k < |t| && IsSpace(t[k])
    ensures Collapse(t[k..]) == " " + Collapse(TrimStart(t[k + 1..]))
    ensures Words(t[k..]) == Words(TrimStart(t[k + 1..]))
  {
    assert t[k..][1..] == t[k + 1..];
    SpaceStep(t[k..]);
  }

  lemma CollapseAtFirstSpace(t: string, u: string)
    requires t != [] && WordLen(t) < |t|
    requires u == TrimStart(t[WordLen(t) + 1..])
    ensures Collapse(t) == t[..WordLen(t)] + (" " + Collapse(u))
  {
    CollapseWord(t, WordLen(t));
    SpaceStepAt(t, WordLen(t));
  }

  lemma WordsAtFirstSpace(t: string, u: string)
    requires t != [] && !IsSpace(t[0]) && WordLen(t) < |t|
    requires u == TrimStart(t[WordLen(t) + 1..])
    ensures Words(t) == [t[..WordLen(t)]] + Words(u)
  {
    WordsStep(t);
    SpaceStepAt(t, WordLen(t));
  }

  lemma CollapseWordThenSpace(t: string, u: string)
    requires t != [] && !IsSpace(t[0]) && WordLen(t) < |t|
    requires u == TrimStart(t[WordLen(t) + 1..]) && u != [] && !IsSpace(u[0])
    requires Collapse(u) == Join(Words(u), " ")
    ensures Collapse(t) == Join(Words(t), " ")
  {
    CollapseAtFirstSpace(t, u);
    WordsAtFirstSpace(t, u);
    WordsStep(u);
    JoinCons(t[..WordLen(t)], Words(u), " ");
  }

  lemma {:induction false} CollapseTrimmed(t: string)
    requires Trimmed(t)
    ensures Collapse(t) == Join(Words(t), " ")
    decreases |t|
  {
    if t != [] {
      var n := WordLen(t);
      if n == |t| {
        CollapseLastWord(t);
      } else {
        TrimmedAfterSpace(t, n);
        var u := TrimStart(t[n + 1..]);
        CollapseTrimmed(u);
        CollapseWordThenSpace(t, u);
      }
    }
  }

  lemma {:induction false} WordLenOfWord(w: string, rest: string)
    requires NoSpace(w) && (rest == [] || IsSpace(rest[0]))
    ensures WordLen(w + rest) == |w|
    decreases |w|
  {
    WordLenAppend(w, rest);
    if w != [] {
      assert w[1..] + [] == w[1..];
      WordLenOfWord(w[1..], []);
      assert w + [] == w;
    }
  }

  lemma {:induction false} TrimStartLeadingSpace(sp: string, x: string)
    requires AllSpace(sp)
    ensures TrimStart(sp + x) == TrimStart(x)
    decreases |sp|
  {
    if sp == [] {
      assert sp + x == x;
    } else {
      assert (sp + x)[1..] == sp[1..] + x;
      TrimStartLeadingSpace(sp[1..], x);
    }
  }

  /** Leading whitespace does not change the words. */
  lemma WordsLeadingSpace(sp: string, x: string)
    requires AllSpace(sp)
    ensures Words(sp + x) == Words(x)
  {
    TrimStartLeadingSpace(sp, x);
    WordsTrimStart(sp + x);
    WordsTrimStart(x);
  }

  /** A word followed by whitespace or by nothing is the first word. */
  lemma WordsWordFirst(w: string, x: string)
    requires w != [] && NoSpace(w) && (x == [] || IsSpace(x[0]))
    ensures Words(w + x) == [w] + Words(x)
  {
    WordLenOfWord(w, x);
    WordsStep(w + x);
    AppendSlices(w, x, |w|);
    assert w[..|w|] == w && w[|w|..] == [];
  }

  /** Words joined by single spaces split back into the same words: the
      words of a normalised string are the words it was built from. */
  lemma {:induction false} WordsOfJoin(ws: seq<string>)
    requires forall i :: 0 <= i < |ws| ==> ws[i] != [] && NoSpace(ws[i])
    ensures Words(Join(ws, " ")) == ws
    decreases |ws|
  {
    if ws == [] {
      assert TrimStart([]) == [];
    } else if |ws| == 1 {
      WordsWordFirst(ws[0], []);
      assert ws[0] + [] == ws[0];
      assert TrimStart([]) == [];
    } else {
      var tail := Join(ws[1..], " ");
      WordsOfJoin(ws[1..]);
      assert IsSpace(' ');
      WordsLeadingSpace(" ", tail);
      WordsWordFirst(ws[0], " " + tail);
      assert ws[0] + " " + tail == ws[0] + (" " + tail);
      assert ws == [ws[0]] + ws[1..];
    }
  }

  /** A word followed by whitespace is that one word. */
  lemma WordsOfWordThenSpace(w: string, sp: string)
    requires w != [] && NoSpace(w) && AllSpace(sp)
    ensures Words(w + sp) == [w]
  {
    WordsAppendSpace(w, sp);
    WordsWordFirst(w, []);
    assert w + [] == w;
    assert Words([]) == [];
  }

  /** A word, then non-empty whitespace, then more. */
  lemma WordsOfWordThenSeparator(w: string, sp: string, x: string)
    requires w != [] && NoSpace(w) && sp != [] && AllSpace(sp)
    ensures Words(w + (sp + x)) == [w] + Words(x)
  {
    assert (sp + x)[0] == sp[0];
    WordsWordFirst(w, sp + x);
    WordsLeadingSpace(sp, x);
  }

  /** Two words with whitespace around and between them. */
  lemma WordsOfTwoPadded(sp1: string, w1: string, sp2: string, w2: string, sp3: string)
    requires AllSpace(sp1) && AllSpace(sp2) && AllSpace(sp3) && sp2 != []
    requires w1 != [] && NoSpace(w1) && w2 != [] && NoSpace(w2)
    ensures Words(sp1 + w1 + sp2 + w2 + sp3) == [w1, w2]
  {
    var tail := w2 + sp3;
    var rest := w1 + (sp2 + tail);
    WordsOfWordThenSpace(w2, sp3);
    WordsOfWordThenSeparator(w1, sp2, tail);
    WordsLeadingSpace(sp1, rest);
    Regroup(sp1, w1, sp2, w2, sp3);
  }

  lemma Regroup(a: string, b: string, c: string, d: string, e: string)
    ensures a + b + c + d + e == a + (b + (c + (d + e)))
  {
  }

  /** `s.trim().replace(/\s+/g, ' ')` is the words of `s` joined by single
      spaces. */
  function Normalize(s: string): (r: string)
    ensures r == Join(Words(s), " ")
  {
    var t := Trim(s);
    CollapseTrimmed(t);
    WordsTrimEnd(TrimStart(s));
    WordsTrimStart(s);
    Collapse(t)
  }

  /** Normalising twice is normalising once. */
  lemma NormalizeIdempotent(s: string)
    ensures Normalize(Normalize(s)) == Normalize(s)
  {
    WordsAreWords(s);
    WordsOfJoin(Words(s));
  }
}
