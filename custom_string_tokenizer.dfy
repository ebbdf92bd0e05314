/**
 * A string tokenizer in the manner of java.util.StringTokenizer over a
 * custom character sequence.  Delimiters are the characters of a delimiter
 * string; in `retDelims` mode every delimiter character is handed out as a
 * token of its own.  A `hasMoreElements` call caches the skip position so
 * that the following `nextToken` need not skip again.
 */
module CustomStringTokenizers {
  import opened Scanning

  /** The outcome of `NextToken`: the token's text, or NoSuchElementException. */
  datatype TokenResult = Token(value: string) | NoSuchElement

  /** The delimiter characters named by a delimiter string. */
  function DelimSet(delimiters: string): set<char>
  {
    set i | 0 <= i < |delimiters| :: delimiters[i]
  }

  /** String.indexOf: the first index holding `c`, or -1. */
  function IndexOf(s: string, c: char): (r: int)
    ensures -1 <= r < |s|
    ensures r >= 0 ==> s[r] == c && forall i :: 0 <= i < r ==> s[i] != c
    ensures r < 0 ==> forall i :: 0 <= i < |s| ==> s[i] != c
  {
    if |s| == 0 then -1
    else if s[0] == c then 0
    else
      var k := IndexOf(s[1..], c);
      if k < 0 then -1 else k + 1
  }

  /** The largest character code in `delimiters`, or 0 when there is none. */
  function MaxCode(delimiters: string): (m: int)
    ensures m >= 0
    ensures forall i :: 0 <= i < |delimiters| ==> delimiters[i] as int <= m
    ensures m == 0 || exists i :: 0 <= i < |delimiters| && delimiters[i] as int == m
  {
    if |delimiters| == 0 then 0
    else
      var m := MaxCode(delimiters[..|delimiters| - 1]);
      var c := delimiters[|delimiters| - 1] as int;
      if m < c then c else m
  }

  /**
   * The delimiter test as the tokenizer performs it: a cheap bound check
   * first, then a search.  Whatever the bound, it never accepts a character
   * that is not a delimiter.
   */
  predicate IsDelim(c: char, delimiters: string, maxDelimCodePoint: int)
    ensures IsDelim(c, delimiters, maxDelimCodePoint) ==> c in DelimSet(delimiters)
  {
    var k := IndexOf(delimiters, c);
    assert k >= 0 ==> delimiters[k] in DelimSet(delimiters);
    c as int <= maxDelimCodePoint && k >= 0
  }

  /** With the bound set to the largest delimiter code, the bound check never rejects a delimiter. */
  lemma IsDelimExact(c: char, delimiters: string)
    ensures IsDelim(c, delimiters, MaxCode(delimiters)) <==> c in DelimSet(delimiters)
  {
    if c in DelimSet(delimiters) {
      var i :| 0 <= i < |delimiters| && delimiters[i] == c;
      assert IndexOf(delimiters, c) >= 0;
    }
  }

  /** Where `nextToken` starts looking: past a delimiter run, or right here in `retDelims` mode. */
  function SkipPos(s: string, pos: nat, delims: set<char>, retDelims: bool): (r: nat)
    requires pos <= |s|
    ensures pos <= r <= |s|
  {
    if retDelims then pos else SkipFrom(s, pos, delims)
  }

  /**
   * Where a token that starts at `pos` ends: at the next delimiter, except
   * that in `retDelims` mode a delimiter at `pos` is a one-character token.
   */
  function ScanPos(s: string, pos: nat, delims: set<char>, retDelims: bool): (r: nat)
    requires pos <= |s|
    ensures pos <= r <= |s|
    ensures pos < |s| && (retDelims || s[pos] !in delims) ==> pos < r
  {
    var p := ScanFrom(s, pos, delims);
    if retDelims && p == pos && p < |s| then p + 1 else p
  }

  /** The tokens successive `nextToken` calls hand out from cursor `pos`. */
  function StrTokens(s: string, pos: nat, delims: set<char>, retDelims: bool): (r: seq<Span>)
    requires pos <= |s|
    ensures InBounds(r, |s|)
    decreases |s| - pos
  {
    var start := SkipPos(s, pos, delims, retDelims);
    if start >= |s| then []
    else
      var end := ScanPos(s, start, delims, retDelims);
      [Span(start, end - start)] + StrTokens(s, end, delims, retDelims)
  }

  /** Without `retDelims` the tokenizer hands out exactly the delimiter-separated tokens. */
  lemma {:induction false} StrTokensPlain(s: string, pos: nat, delims: set<char>)
    requires pos <= |s|
    ensures StrTokens(s, pos, delims, false) == Tokens(s, pos, delims)
    decreases |s| - pos
  {
    var start := SkipFrom(s, pos, delims);
    if start < |s| {
      StrTokensPlain(s, ScanFrom(s, start, delims), delims);
    }
  }

  /**
   * In `retDelims` mode every token is a single delimiter, or a non-empty
   * run of other characters ended by a delimiter or the end of the string.
   */
  lemma {:induction false} RetDelimsTokens(s: string, pos: nat, delims: set<char>)
    requires pos <= |s|
    ensures forall i :: 0 <= i < |StrTokens(s, pos, delims, true)| ==>
              var sp := StrTokens(s, pos, delims, true)[i];
              (sp.length == 1 && s[sp.offset] in delims) || IsToken(s, sp, delims)
    decreases |s| - pos
  {
    if pos < |s| {
      var end := ScanPos(s, pos, delims, true);
      RetDelimsTokens(s, end, delims);
      var toks := StrTokens(s, pos, delims, true);
      assert toks == [Span(pos, end - pos)] + StrTokens(s, end, delims, true);
      forall i | 0 <= i < |toks|
        ensures (toks[i].length == 1 && s[toks[i].offset] in delims) || IsToken(s, toks[i], delims)
      {
        if i > 0 {
          assert toks[i] == StrTokens(s, end, delims, true)[i - 1];
        }
      }
    }
  }

  /** In `retDelims` mode no character is lost: the tokens concatenate back to the rest of the text. */
  lemma {:induction false} RetDelimsCover(s: string, pos: nat, delims: set<char>)
    requires pos <= |s|
    ensures Concat(Contents(s, StrTokens(s, pos, delims, true))) == s[pos..]
    decreases |s| - pos
  {
    if pos < |s| {
      var end := ScanPos(s, pos, delims, true);
      RetDelimsCover(s, end, delims);
      ContentsCons(s, Span(pos, end - pos), StrTokens(s, end, delims, true));
      ConcatCons(s[pos..end], Contents(s, StrTokens(s, end, delims, true)));
      assert s[pos..] == s[pos..end] + s[end..];
    }
  }

  /** "a,b" split on ',': the delimiter is dropped, or returned as a token of its own in `retDelims` mode. */
  lemma RetDelimsExample()
    ensures StrTokens("a,b", 0, {','}, false) == [Span(0, 1), Span(2, 1)]
    ensures StrTokens("a,b", 0, {','}, true) == [Span(0, 1), Span(1, 1), Span(2, 1)]
  {
    var s := "a,b";
    var d := {','};
    SkipFromUnique(s, 3, d, 3);
    SkipFromUnique(s, 1, d, 2);
    ScanFromUnique(s, 2, d, 3);
    assert StrTokens(s, 1, d, false) == [Span(2, 1)] + StrTokens(s, 3, d, false);
    SkipFromUnique(s, 0, d, 0);
    ScanFromUnique(s, 0, d, 1);
    assert StrTokens(s, 0, d, false) == [Span(0, 1)] + StrTokens(s, 1, d, false);
    ScanFromUnique(s, 1, d, 1);
    assert StrTokens(s, 2, d, true) == [Span(2, 1)] + StrTokens(s, 3, d, true);
    assert StrTokens(s, 1, d, true) == [Span(1, 1)] + StrTokens(s, 2, d, true);
    assert StrTokens(s, 0, d, true) == [Span(0, 1)] + StrTokens(s, 1, d, true);
  }

  class CustomStringTokenizer {
    var currentPosition: nat
    var newPosition: int
    const maxPosition: nat
    const str: string
    const delimiters: string
    const retDelims: bool
    var delimsChanged: bool
    var maxDelimCodePoint: int

    ghost predicate Valid()
      reads this
    {
      && maxPosition == |str|
      && currentPosition <= maxPosition
      && maxDelimCodePoint == MaxCode(delimiters)
      && !delimsChanged
      && (newPosition == -1 || newPosition == SkipPos(str, currentPosition, DelimSet(delimiters), retDelims))
    }

    /** The tokens that successive `NextToken` calls hand out from the cursor on. */
    ghost function Remaining(): seq<Span>
      reads this
      requires Valid()
    {
      StrTokens(str, currentPosition, DelimSet(delimiters), retDelims)
    }

    constructor (str: string, delim: string, returnDelims: bool)
      ensures Valid()
      ensures this.str == str && delimiters == delim && retDelims == returnDelims
      ensures currentPosition == 0 && newPosition == -1
    {
      currentPosition := 0;
      newPosition := -1;
      delimsChanged := false;
      this.str := str;
      maxPosition := |str|;
      delimiters := delim;
      retDelims := returnDelims;
      new;
      SetMaxDelimCodePoint();
    }

    /** The two-argument form: delimiters are not returned as tokens. */
    constructor WithoutDelims(str: string, delim: string)
      ensures Valid()
      ensures this.str == str && delimiters == delim && !retDelims
      ensures currentPosition == 0 && newPosition == -1
    {
      currentPosition := 0;
      newPosition := -1;
      delimsChanged := false;
      this.str := str;
      maxPosition := |str|;
      delimiters := delim;
      retDelims := false;
      new;
      SetMaxDelimCodePoint();
    }

    /** Sets the bound used by the cheap delimiter check to the highest delimiter code. */
    method SetMaxDelimCodePoint()
      modifies this`maxDelimCodePoint
      ensures maxDelimCodePoint == MaxCode(delimiters)
    {
      var m := 0;
      for i := 0 to |delimiters|
        invariant m == MaxCode(delimiters[..i])
      {
        assert delimiters[..i + 1][..i] == delimiters[..i];
        var c := delimiters[i] as int;
        if m < c {
          m := c;
        }
      }
      assert delimiters[..|delimiters|] == delimiters;
      maxDelimCodePoint := m;
    }

    /** Skips delimiters from `startPos`, unless they are returned as tokens. */
    method SkipDelimiters(startPos: nat) returns (position: nat)
      requires Valid() && startPos <= maxPosition
      ensures position == SkipPos(str, startPos, DelimSet(delimiters), retDelims)
    {
      ghost var d := DelimSet(delimiters);
      position := startPos;
      while !retDelims && position < maxPosition
        invariant startPos <= position <= maxPosition
        invariant !retDelims ==> SkipFrom(str, position, d) == SkipFrom(str, startPos, d)
        invariant retDelims ==> position == startPos
      {
        var c := str[position];
        IsDelimExact(c, delimiters);
        if c as int > maxDelimCodePoint || IndexOf(delimiters, c) < 0 {
          break;
        }
        position := position + 1;
      }
    }

    /**
     * The end of the token starting at `startPos`: the next delimiter, or one
     * past a delimiter found right at `startPos` in `retDelims` mode.
     */
    method ScanToken(startPos: nat) returns (position: nat)
      requires Valid() && startPos <= maxPosition
      requires retDelims ==> startPos < maxPosition
      ensures position == ScanPos(str, startPos, DelimSet(delimiters), retDelims)
    {
      ghost var d := DelimSet(delimiters);
      position := startPos;
      while position < maxPosition
        invariant startPos <= position <= maxPosition
        invariant ScanFrom(str, position, d) == ScanFrom(str, startPos, d)
      {
        var c := str[position];
        IsDelimExact(c, delimiters);
        if c as int <= maxDelimCodePoint && IndexOf(delimiters, c) >= 0 {
          break;
        }
        position := position + 1;
      }
      if retDelims && startPos == position {
        var c := str[position];
        IsDelimExact(c, delimiters);
        if c as int <= maxDelimCodePoint && IndexOf(delimiters, c) >= 0 {
          position := position + 1;
        }
      }
    }

    /**
     * Hands out the next token, starting from the cached skip position when
     * `HasMoreElements` left one.  The cache is cleared either way; when no
     * token is left the cursor has been moved to the end.
     */
    method NextToken() returns (r: TokenResult)
      requires Valid()
      modifies this`currentPosition, this`newPosition, this`delimsChanged
      ensures Valid()
      ensures newPosition == -1
      ensures r == NoSuchElement <==> old(Remaining()) == []
      ensures r.NoSuchElement? ==> currentPosition == maxPosition
      ensures r.Token? ==> r.value == Slice(str, old(Remaining())[0]) && Remaining() == old(Remaining())[1..]
      ensures r.Token? ==> currentPosition == old(Remaining())[0].End()
    {
      if newPosition >= 0 && !delimsChanged {
        currentPosition := newPosition;
      } else {
        currentPosition := SkipDelimiters(currentPosition);
      }
      delimsChanged := false;
      newPosition := -1;
      if currentPosition >= maxPosition {
        return NoSuchElement;
      }
      var start := currentPosition;
      currentPosition := ScanToken(currentPosition);
      r := Token(str[start..currentPosition]);
    }

    /** The Enumeration form of `NextToken`. */
    method NextElement() returns (r: TokenResult)
      requires Valid()
      modifies this`currentPosition, this`newPosition, this`delimsChanged
      ensures Valid()
      ensures newPosition == -1
      ensures r == NoSuchElement <==> old(Remaining()) == []
      ensures r.NoSuchElement? ==> currentPosition == maxPosition
      ensures r.Token? ==> r.value == Slice(str, old(Remaining())[0]) && Remaining() == old(Remaining())[1..]
      ensures r.Token? ==> currentPosition == old(Remaining())[0].End()
    {
      r := NextToken();
    }

    /** True iff a token is left; caches the skip position, the cursor stays put. */
    method HasMoreElements() returns (more: bool)
      requires Valid()
      modifies this`newPosition
      ensures Valid()
      ensures newPosition == SkipPos(str, currentPosition, DelimSet(delimiters), retDelims)
      ensures more <==> Remaining() != []
    {
      newPosition := SkipDelimiters(currentPosition);
      more := newPosition < maxPosition;
    }

    /** The number of `NextToken` calls that succeed from here on; the cursor does not move. */
    method CountTokens() returns (count: nat)
      requires Valid()
      ensures count == |Remaining()|
    {
      ghost var d := DelimSet(delimiters);
      count := 0;
      var currpos := currentPosition;
      while currpos < maxPosition
        invariant currentPosition <= currpos <= maxPosition
        invariant count + |StrTokens(str, currpos, d, retDelims)| == |Remaining()|
        decreases maxPosition - currpos
      {
        currpos := SkipDelimiters(currpos);
        if currpos >= maxPosition {
          break;
        }
        currpos := ScanToken(currpos);
        count := count + 1;
      }
    }
  }
}
