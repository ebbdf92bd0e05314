/**
 * Delimiter scanning shared by all tokenizers: positions, token spans and the
 * sequence of tokens a cursor-based scanner hands out.  A scanner is
 * parameterised by the element type (bytes or chars) and by the set of
 * elements that count as delimiters.
 */
module Scanning {

  /** A zero-copy token: `length` elements of the scanned buffer starting at `offset`. */
  datatype Span = Span(offset: nat, length: nat) {
    function End(): nat { offset + length }
  }

  /** All spans lie inside a buffer of length `n`. */
  predicate InBounds(spans: seq<Span>, n: nat) {
    forall i :: 0 <= i < |spans| ==> spans[i].End() <= n
  }

  /** A span is a token of `s`: non-empty, inside `s`, free of delimiters, and ended by a delimiter or the buffer end. */
  predicate IsToken<T(==)>(s: seq<T>, sp: Span, delims: set<T>) {
    && 1 <= sp.length
    && sp.End() <= |s|
    && (forall j :: sp.offset <= j < sp.End() ==> s[j] !in delims)
    && (sp.End() < |s| ==> s[sp.End()] in delims)
  }

  /** The elements of `s` a span views. */
  function Slice<T>(s: seq<T>, sp: Span): seq<T>
    requires sp.End() <= |s|
  {
    s[sp.offset..sp.End()]
  }

  /** The element sequences a list of spans views. */
  function Contents<T>(s: seq<T>, spans: seq<Span>): (r: seq<seq<T>>)
    requires InBounds(spans, |s|)
    ensures |r| == |spans|
    ensures forall i :: 0 <= i < |spans| ==> r[i] == Slice(s, spans[i])
  {
    if spans == [] then [] else [Slice(s, spans[0])] + Contents(s, spans[1..])
  }

  /** The first position at or after `pos` that holds no delimiter, or |s|. */
  function SkipFrom<T(==)>(s: seq<T>, pos: nat, delims: set<T>): (r: nat)
    requires pos <= |s|
    ensures pos <= r <= |s|
    ensures forall i :: pos <= i < r ==> s[i] in delims
    ensures r < |s| ==> s[r] !in delims
    decreases |s| - pos
  {
    if pos < |s| && s[pos] in delims then SkipFrom(s, pos + 1, delims) else pos
  }

  /** The first position at or after `pos` that holds a delimiter, or |s|. */
  function ScanFrom<T(==)>(s: seq<T>, pos: nat, delims: set<T>): (r: nat)
    requires pos <= |s|
    ensures pos <= r <= |s|
    ensures forall i :: pos <= i < r ==> s[i] !in delims
    ensures r < |s| ==> s[r] in delims
    decreases |s| - pos
  {
    if pos < |s| && s[pos] !in delims then ScanFrom(s, pos + 1, delims) else pos
  }

  /**
   * The tokens a scanner hands out from cursor `pos`: skip a delimiter run,
   * take the span up to the next delimiter, repeat until the buffer ends.
   */
  function Tokens<T(==)>(s: seq<T>, pos: nat, delims: set<T>): (r: seq<Span>)
    requires pos <= |s|
    ensures InBounds(r, |s|)
    ensures forall i :: 0 <= i < |r| ==> pos <= r[i].offset
    decreases |s| - pos
  {
    var start := SkipFrom(s, pos, delims);
    if start == |s| then []
    else
      var end := ScanFrom(s, start, delims);
      [Span(start, end - start)] + Tokens(s, end, delims)
  }

  /** The token contents from cursor `pos`. */
  function TokenContents<T(==)>(s: seq<T>, pos: nat, delims: set<T>): seq<seq<T>>
    requires pos <= |s|
  {
    Contents(s, Tokens(s, pos, delims))
  }

  /** Words joined with one separator between neighbours (left to right, as a string builder does). */
  function Join<T>(ws: seq<seq<T>>, sep: T): seq<T>
  {
    if |ws| == 0 then []
    else if |ws| == 1 then ws[0]
    else Join(ws[..|ws| - 1], sep) + [sep] + ws[|ws| - 1]
  }

  /** The concatenation of a list of sequences. */
  function Concat<T>(xss: seq<seq<T>>): seq<T>
  {
    if xss == [] then [] else xss[0] + Concat(xss[1..])
  }

  /** Concat takes its first sequence whole. */
  lemma ConcatCons<T>(xs: seq<T>, xss: seq<seq<T>>)
    ensures Concat([xs] + xss) == xs + Concat(xss)
  {
    assert ([xs] + xss)[1..] == xss;
  }

  // ---------------------------------------------------------------------------
  // Skipping and scanning

  /** SkipFrom is the only position with its defining properties. */
  lemma {:induction false} SkipFromUnique<T>(s: seq<T>, pos: nat, delims: set<T>, r: nat)
    requires pos <= r <= |s|
    requires forall i :: pos <= i < r ==> s[i] in delims
    requires r < |s| ==> s[r] !in delims
    ensures SkipFrom(s, pos, delims) == r
    decreases r - pos
  {
    if pos < r {
      SkipFromUnique(s, pos + 1, delims, r);
    }
  }

  /** ScanFrom is the only position with its defining properties. */
  lemma {:induction false} ScanFromUnique<T>(s: seq<T>, pos: nat, delims: set<T>, r: nat)
    requires pos <= r <= |s|
    requires forall i :: pos <= i < r ==> s[i] !in delims
    requires r < |s| ==> s[r] in delims
    ensures ScanFrom(s, pos, delims) == r
    decreases r - pos
  {
    if pos < r {
      ScanFromUnique(s, pos + 1, delims, r);
    }
  }

  /** Skipping with fewer delimiters stops no later than skipping with more. */
  lemma {:induction false} SkipMonotone<T>(s: seq<T>, pos: nat, fewer: set<T>, more: set<T>)
    requires pos <= |s|
    requires fewer <= more
    ensures SkipFrom(s, pos, fewer) <= SkipFrom(s, pos, more)
    decreases |s| - pos
  {
    if pos < |s| && s[pos] in fewer {
      SkipMonotone(s, pos + 1, fewer, more);
    }
  }

  /** A run of delimiters between `pos` and `q` changes neither the skip position nor the tokens. */
  lemma {:induction false} TokensOverDelimiters<T>(s: seq<T>, pos: nat, q: nat, delims: set<T>)
    requires pos <= q <= |s|
    requires forall i :: pos <= i < q ==> s[i] in delims
    ensures SkipFrom(s, pos, delims) == SkipFrom(s, q, delims)
    ensures Tokens(s, pos, delims) == Tokens(s, q, delims)
    ensures TokenContents(s, pos, delims) == TokenContents(s, q, delims)
  {
    SkipFromUnique(s, pos, delims, SkipFrom(s, q, delims));
  }

  /** Tokens start at the skip position. */
  lemma TokensFromSkip<T>(s: seq<T>, pos: nat, delims: set<T>)
    requires pos <= |s|
    ensures Tokens(s, SkipFrom(s, pos, delims), delims) == Tokens(s, pos, delims)
  {
    TokensOverDelimiters(s, pos, SkipFrom(s, pos, delims), delims);
  }

  // ---------------------------------------------------------------------------
  // What the tokens are

  /**
   * Every token is non-empty, in bounds, free of delimiters, and ended by a
   * delimiter or the end of the input; tokens are in order.  Maximality on
   * the left follows together with TokensCover.
   */
  lemma {:induction false} TokensWellFormed<T>(s: seq<T>, pos: nat, delims: set<T>)
    requires pos <= |s|
    ensures forall i :: 0 <= i < |Tokens(s, pos, delims)| ==> IsToken(s, Tokens(s, pos, delims)[i], delims)
    ensures forall i :: 0 <= i < |Tokens(s, pos, delims)| - 1 ==>
              Tokens(s, pos, delims)[i].End() < Tokens(s, pos, delims)[i + 1].offset
    decreases |s| - pos
  {
    var start := SkipFrom(s, pos, delims);
    if start < |s| {
      var end := ScanFrom(s, start, delims);
      var toks := Tokens(s, pos, delims);
      assert toks == [Span(start, end - start)] + Tokens(s, end, delims);
      if end < |s| {
        TokensWellFormed(s, end, delims);
        var rest := Tokens(s, end, delims);
        assert rest != [] ==> SkipFrom(s, end, delims) == rest[0].offset;
        assert rest != [] ==> end < rest[0].offset;
      }
    }
  }

  /** Every non-delimiter position at or after `pos` lies inside some token. */
  lemma {:induction false} TokensCover<T>(s: seq<T>, pos: nat, delims: set<T>, j: nat)
    requires pos <= j < |s|
    requires s[j] !in delims
    ensures exists i :: 0 <= i < |Tokens(s, pos, delims)| &&
              Tokens(s, pos, delims)[i].offset <= j < Tokens(s, pos, delims)[i].End()
    decreases |s| - pos
  {
    var start := SkipFrom(s, pos, delims);
    assert start <= j;
    var end := ScanFrom(s, start, delims);
    var toks := Tokens(s, pos, delims);
    assert toks == [Span(start, end - start)] + Tokens(s, end, delims);
    if j < end {
      assert toks[0].offset <= j < toks[0].End();
    } else {
      TokensCover(s, end, delims, j);
      var i :| 0 <= i < |Tokens(s, end, delims)| &&
               Tokens(s, end, delims)[i].offset <= j < Tokens(s, end, delims)[i].End();
      assert toks[i + 1] == Tokens(s, end, delims)[i];
    }
  }

  // ---------------------------------------------------------------------------
  // Round trip: joining tokens with one delimiter and scanning again

  lemma ContentsCons<T>(s: seq<T>, x: Span, rest: seq<Span>)
    requires x.End() <= |s| && InBounds(rest, |s|)
    ensures InBounds([x] + rest, |s|)
    ensures Contents(s, [x] + rest) == [Slice(s, x)] + Contents(s, rest)
  {
    assert ([x] + rest)[1..] == rest;
  }

  /** A delimiter-free word at `o`, ended by a delimiter or the buffer end, is the next token. */
  lemma LeadingToken<T>(s: seq<T>, o: nat, w: seq<T>, delims: set<T>)
    requires 1 <= |w| && o + |w| <= |s| && s[o..o + |w|] == w
    requires forall j :: 0 <= j < |w| ==> w[j] !in delims
    requires o + |w| < |s| ==> s[o + |w|] in delims
    ensures TokenContents(s, o, delims) == [w] + TokenContents(s, o + |w|, delims)
  {
    assert s[o] == w[0];
    SkipFromUnique(s, o, delims, o);
    assert forall k :: o <= k < o + |w| ==> s[k] == w[k - o];
    ScanFromUnique(s, o, delims, o + |w|);
    assert Tokens(s, o, delims) == [Span(o, |w|)] + Tokens(s, o + |w|, delims);
    ContentsCons(s, Span(o, |w|), Tokens(s, o + |w|, delims));
  }

  lemma {:induction false} JoinCons<T>(w: seq<T>, ws: seq<seq<T>>, sep: T)
    requires |ws| >= 1
    ensures Join([w] + ws, sep) == w + [sep] + Join(ws, sep)
    decreases |ws|
  {
    if |ws| > 1 {
      var init := ws[..|ws| - 1];
      assert ([w] + ws)[..|ws|] == [w] + init;
      JoinCons(w, init, sep);
    } else {
      assert [w] + ws == [w, ws[0]];
    }
  }

  /** Where the rest of `s` from `o` is a joined word list, scanning from `o` gives the words back. */
  lemma {:induction false} JoinThenScanAt<T>(ws: seq<seq<T>>, d: T, delims: set<T>, s: seq<T>, o: nat)
    requires d in delims
    requires forall i :: 0 <= i < |ws| ==> |ws[i]| >= 1
    requires forall i, j :: 0 <= i < |ws| && 0 <= j < |ws[i]| ==> ws[i][j] !in delims
    requires o <= |s| && s[o..] == Join(ws, d)
    ensures TokenContents(s, o, delims) == ws
    decreases |ws|
  {
    if |ws| == 0 {
      assert Tokens(s, o, delims) == [];
    } else if |ws| == 1 {
      LastWord(ws[0], delims, s, o);
    } else {
      var w := ws[0];
      var rest := ws[1..];
      assert ws == [w] + rest;
      JoinParts(w, rest, d, s, o);
      JoinThenScanAt(rest, d, delims, s, o + |w| + 1);
      WordThenRest(s, o, w, rest, delims);
    }
  }

  /** The rest of `s` from `o` is one word: scanning from `o` gives that word alone. */
  lemma LastWord<T>(w: seq<T>, delims: set<T>, s: seq<T>, o: nat)
    requires 1 <= |w|
    requires forall j :: 0 <= j < |w| ==> w[j] !in delims
    requires o <= |s| && s[o..] == w
    ensures TokenContents(s, o, delims) == [w]
  {
    assert s[o..o + |w|] == s[o..];
    LeadingToken(s, o, w, delims);
    assert Tokens(s, o + |w|, delims) == [];
  }

  /** Where the rest of `s` from `o` joins `w` and `rest`: the word, one separator, then the joined rest. */
  lemma JoinParts<T>(w: seq<T>, rest: seq<seq<T>>, d: T, s: seq<T>, o: nat)
    requires |rest| >= 1 && o <= |s| && s[o..] == Join([w] + rest, d)
    ensures o + |w| + 1 <= |s|
    ensures s[o..o + |w|] == w && s[o + |w|] == d && s[o + |w| + 1..] == Join(rest, d)
  {
    JoinCons(w, rest, d);
    SplitAt(s, o, w, d, Join(rest, d));
  }

  /** Where the rest of `s` from `o` is `w`, `d`, `j`, the three parts sit at their offsets. */
  lemma SplitAt<T>(s: seq<T>, o: nat, w: seq<T>, d: T, j: seq<T>)
    requires o <= |s| && s[o..] == w + [d] + j
    ensures o + |w| + 1 <= |s|
    ensures s[o..o + |w|] == w && s[o + |w|] == d && s[o + |w| + 1..] == j
  {
    var t := s[o..];
    assert s[o..o + |w|] == t[..|w|];
    assert s[o + |w|] == t[|w|];
    assert s[o + |w| + 1..] == t[|w| + 1..];
  }

  /** A word ended by one delimiter, followed by text that scans to `rest`, scans to the word and then `rest`. */
  lemma WordThenRest<T>(s: seq<T>, o: nat, w: seq<T>, rest: seq<seq<T>>, delims: set<T>)
    requires 1 <= |w| && o + |w| + 1 <= |s| && s[o..o + |w|] == w
    requires forall j :: 0 <= j < |w| ==> w[j] !in delims
    requires s[o + |w|] in delims
    requires TokenContents(s, o + |w| + 1, delims) == rest
    ensures TokenContents(s, o, delims) == [w] + rest
  {
    LeadingToken(s, o, w, delims);
    TokensOverDelimiters(s, o + |w|, o + |w| + 1, delims);
  }

  /** Words that are non-empty and delimiter-free, joined by one delimiter, scan back to themselves. */
  lemma JoinThenScan<T>(ws: seq<seq<T>>, d: T, delims: set<T>)
    requires d in delims
    requires forall i :: 0 <= i < |ws| ==> |ws[i]| >= 1
    requires forall i, j :: 0 <= i < |ws| && 0 <= j < |ws[i]| ==> ws[i][j] !in delims
    ensures TokenContents(Join(ws, d), 0, delims) == ws
  {
    var s := Join(ws, d);
    assert s[0..] == s;
    JoinThenScanAt(ws, d, delims, s, 0);
  }

  /** Every token is non-empty and made of non-delimiter elements of the buffer. */
  lemma TokenElements<T>(s: seq<T>, pos: nat, delims: set<T>)
    requires pos <= |s|
    ensures forall i :: 0 <= i < |TokenContents(s, pos, delims)| ==> |TokenContents(s, pos, delims)[i]| >= 1
    ensures forall i, j :: 0 <= i < |TokenContents(s, pos, delims)| && 0 <= j < |TokenContents(s, pos, delims)[i]| ==>
              TokenContents(s, pos, delims)[i][j] !in delims && TokenContents(s, pos, delims)[i][j] in s
  {
    var toks := Tokens(s, pos, delims);
    var ws := TokenContents(s, pos, delims);
    TokensWellFormed(s, pos, delims);
    forall i, j | 0 <= i < |ws| && 0 <= j < |ws[i]| ensures ws[i][j] !in delims && ws[i][j] in s {
      assert IsToken(s, toks[i], delims);
      assert ws[i][j] == s[toks[i].offset + j];
    }
    forall i | 0 <= i < |ws| ensures |ws[i]| >= 1 {
      assert IsToken(s, toks[i], delims);
    }
  }

  /**
   * Round trip: joining the tokens of `s` with one delimiter and scanning the
   * result again yields the same token contents.
   */
  lemma RoundTrip<T>(s: seq<T>, d: T, delims: set<T>)
    requires d in delims
    ensures TokenContents(Join(TokenContents(s, 0, delims), d), 0, delims) == TokenContents(s, 0, delims)
  {
    var ws := TokenContents(s, 0, delims);
    TokenElements(s, 0, delims);
    JoinThenScan(ws, d, delims);
  }
}
