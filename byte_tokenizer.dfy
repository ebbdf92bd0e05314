/**
 * A cursor-based scanner over a byte array with one delimiter byte.  Runs of
 * the delimiter are collapsed and each token is handed out as a zero-copy
 * (offset, length) view of the array.
 */
module ByteTokenizers {
  import opened Scanning

  /** The outcome of `NextToken`: a view into the array, or NoSuchElementException. */
  datatype TokenResult = Token(span: Span) | NoSuchElement

  class ByteTokenizer {
    var currentPosition: nat
    const maxPosition: nat
    const bytes: array<bv8>
    const delimiter: bv8

    ghost predicate Valid()
      reads this
    {
      maxPosition == bytes.Length && currentPosition <= maxPosition
    }

    /** The tokens that successive `NextToken` calls hand out from the cursor on. */
    ghost function Remaining(): seq<Span>
      reads this, bytes
      requires Valid()
    {
      Tokens(bytes[..], currentPosition, {delimiter})
    }

    constructor (bytes: array<bv8>, delimiter: bv8)
      ensures Valid()
      ensures this.bytes == bytes && this.delimiter == delimiter
      ensures currentPosition == 0
      ensures Remaining() == Tokens(bytes[..], 0, {delimiter})
    {
      this.bytes := bytes;
      this.delimiter := delimiter;
      currentPosition := 0;
      maxPosition := bytes.Length;
    }

    /** True iff some byte at or after the cursor differs from the delimiter; the cursor stays put. */
    method HasMoreTokens() returns (more: bool)
      requires Valid()
      ensures more <==> exists i :: currentPosition <= i < bytes.Length && bytes[i] != delimiter
      ensures more <==> Remaining() != []
    {
      var newPosition := SkipDelimiters(currentPosition);
      more := newPosition < maxPosition;
    }

    /**
     * Hands out the next token and moves the cursor past it.  When no token
     * is left the cursor has been moved to the end and NoSuchElement comes back.
     */
    method NextToken() returns (r: TokenResult)
      requires Valid()
      modifies this`currentPosition
      ensures Valid()
      ensures r == NoSuchElement <==> old(Remaining()) == []
      ensures r.NoSuchElement? ==> currentPosition == maxPosition
      ensures r.Token? ==> r.span == old(Remaining())[0] && Remaining() == old(Remaining())[1..]
      ensures r.Token? ==> IsToken(bytes[..], r.span, {delimiter})
      ensures r.Token? ==> currentPosition == r.span.End()
      ensures r.Token? ==> currentPosition == maxPosition || bytes[currentPosition] == delimiter
    {
      currentPosition := SkipDelimiters(currentPosition);
      if currentPosition >= maxPosition {
        return NoSuchElement;
      }
      var startPosition := currentPosition;
      currentPosition := ScanToken(currentPosition);
      var length := currentPosition - startPosition;
      r := Token(Span(startPosition, length));
      TokensWellFormed(bytes[..], old(currentPosition), {delimiter});
    }

    /** The number of `NextToken` calls that succeed from here on; the cursor does not move. */
    method CountTokens() returns (tokenNums: nat)
      requires Valid()
      ensures tokenNums == |Remaining()|
    {
      tokenNums := 0;
      var position := currentPosition;
      while position < maxPosition
        invariant currentPosition <= position <= maxPosition
        invariant tokenNums + |Tokens(bytes[..], position, {delimiter})| == |Remaining()|
        decreases maxPosition - position
      {
        TokensFromSkip(bytes[..], position, {delimiter});
        position := SkipDelimiters(position);
        if position >= maxPosition {
          break;
        }
        position := ScanToken(position);
        tokenNums := tokenNums + 1;
      }
    }

    /** The first non-delimiter position at or after `startPosition`. */
    method SkipDelimiters(startPosition: nat) returns (position: nat)
      requires Valid() && startPosition <= maxPosition
      ensures position == SkipFrom(bytes[..], startPosition, {delimiter})
    {
      position := startPosition;
      while position < maxPosition
        invariant startPosition <= position <= maxPosition
        invariant SkipFrom(bytes[..], position, {delimiter}) == SkipFrom(bytes[..], startPosition, {delimiter})
      {
        if IsDelimiter(position) {
          position := position + 1;
        } else {
          break;
        }
      }
    }

    /** The next delimiter position at or after `startPosition`, or the end of the array. */
    method ScanToken(startPosition: nat) returns (position: nat)
      requires Valid() && startPosition <= maxPosition
      ensures position == ScanFrom(bytes[..], startPosition, {delimiter})
    {
      position := startPosition;
      while position < maxPosition
        invariant startPosition <= position <= maxPosition
        invariant ScanFrom(bytes[..], position, {delimiter}) == ScanFrom(bytes[..], startPosition, {delimiter})
      {
        if IsDelimiter(position) {
          break;
        }
        position := position + 1;
      }
    }

    /** The byte test of the skip and scan loops: the byte is in the delimiter set. */
    predicate IsDelimiter(position: nat)
      reads this, bytes
      requires position < bytes.Length
      ensures IsDelimiter(position) <==> bytes[..][position] in {delimiter}
    {
      bytes[position] == delimiter
    }
  }

  /** The byte array of the tokenizer's demonstration program, with delimiter 0x80. */
  const DemoBytes: seq<bv8> := [0x31, 0xC0, 0x80, 0x64, 0x75, 0x79, 0x64, 0xC0, 0x80, 0x39]

  /** The demonstration array splits into three tokens; 0xC0 is an ordinary byte there. */
  lemma DemoTokens()
    ensures Tokens(DemoBytes, 0, {0x80}) == [Span(0, 2), Span(3, 5), Span(9, 1)]
  {
    var s: seq<bv8> := DemoBytes;
    var d: set<bv8> := {0x80};
    DemoLastToken();
    SkipFromUnique(s, 2, d, 3);
    ScanFromUnique(s, 3, d, 8);
    assert Tokens(s, 2, d) == [Span(3, 5)] + Tokens(s, 8, d);
    SkipFromUnique(s, 0, d, 0);
    ScanFromUnique(s, 0, d, 2);
    assert Tokens(s, 0, d) == [Span(0, 2)] + Tokens(s, 2, d);
  }

  /** After the second delimiter of the demonstration array only the byte "9" is left. */
  lemma DemoLastToken()
    ensures Tokens(DemoBytes, 8, {0x80}) == [Span(9, 1)]
  {
    var s: seq<bv8> := DemoBytes;
    var d: set<bv8> := {0x80};
    SkipFromUnique(s, 10, d, 10);
    assert Tokens(s, 10, d) == [];
    SkipFromUnique(s, 8, d, 9);
    ScanFromUnique(s, 9, d, 10);
    assert Tokens(s, 8, d) == [Span(9, 1)] + Tokens(s, 10, d);
  }

  /** The contents of the three demonstration tokens. */
  lemma DemoContents()
    ensures TokenContents(DemoBytes, 0, {0x80}) == [[0x31, 0xC0], [0x64, 0x75, 0x79, 0x64, 0xC0], [0x39]]
  {
    var s: seq<bv8> := DemoBytes;
    DemoTokens();
    var r := TokenContents(s, 0, {0x80});
    assert r[0] == s[0..2] == [0x31, 0xC0];
    assert r[1] == s[3..8] == [0x64, 0x75, 0x79, 0x64, 0xC0];
    assert r[2] == s[9..10] == [0x39];
  }

  /**
   * The demonstration program's loop: count the tokens of `a`, then take
   * tokens while `HasMoreTokens` says so.  The count equals the number of
   * tokens taken, and the array is left as it was.
   */
  method CountThenDrain(a: array<bv8>, delimiter: bv8) returns (count: nat, tokens: seq<Span>)
    ensures tokens == Tokens(a[..], 0, {delimiter})
    ensures count == |tokens|
  {
    var tokenizer := new ByteTokenizer(a, delimiter);
    count := tokenizer.CountTokens();
    tokens := [];
    var more := tokenizer.HasMoreTokens();
    while more
      invariant tokenizer.Valid() && tokenizer.bytes == a && tokenizer.delimiter == delimiter
      invariant tokens + tokenizer.Remaining() == Tokens(a[..], 0, {delimiter})
      invariant more <==> tokenizer.Remaining() != []
      decreases |tokenizer.Remaining()|
    {
      ghost var remaining := tokenizer.Remaining();
      var r := tokenizer.NextToken();
      TakeFirst(tokens, remaining);
      tokens := tokens + [r.span];
      more := tokenizer.HasMoreTokens();
    }
  }

  /** Moving the head of `rest` onto the end of `taken` keeps their concatenation. */
  lemma TakeFirst<T>(taken: seq<T>, rest: seq<T>)
    requires rest != []
    ensures (taken + [rest[0]]) + rest[1..] == taken + rest
  {
    assert rest == [rest[0]] + rest[1..];
  }
}
