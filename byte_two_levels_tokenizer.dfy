/**
 * A nested scanner over a byte array: level-1 delimiter bytes end records,
 * level-2 delimiter bytes separate the fields of a record.  Each `NextToken`
 * call returns the fields of one record as zero-copy views.
 */
module ByteTwoLevelsTokenizers {
  import opened Scanning

  /** The outcome of one field step: a field, the end of the record, or NoSuchElementException. */
  datatype L2Step = Field(span: Span) | RecordEnd | OutOfBound

  /** Both delimiter bytes: the set a field ends at. */
  function Both(l1: bv8, l2: bv8): set<bv8> { {l1, l2} }

  /** Some byte at or after `pos` is neither delimiter. */
  predicate HasMore(s: seq<bv8>, pos: nat, l1: bv8, l2: bv8)
    requires pos <= |s|
  {
    SkipFrom(s, pos, Both(l1, l2)) < |s|
  }

  /**
   * One field step from cursor `pos` and the cursor after it: skip level-2
   * bytes; at the end of the array the step fails; a level-1 byte is consumed
   * and ends the record; otherwise the field runs to the next delimiter of
   * either level.
   */
  function L2StepFrom(s: seq<bv8>, pos: nat, l1: bv8, l2: bv8): (r: (L2Step, nat))
    requires pos <= |s|
    ensures pos <= r.1 <= |s|
  {
    var k := SkipFrom(s, pos, {l2});
    if k >= |s| then (OutOfBound, k)
    else if s[k] == l1 then (RecordEnd, k + 1)
    else
      var e := ScanFrom(s, k, Both(l1, l2));
      (Field(Span(k, e - k)), e)
  }

  /**
   * What one field step finds: it runs out of bounds exactly when only
   * level-2 bytes are left; otherwise it passes level-2 bytes only, and
   * either consumes the level-1 byte that follows them or takes the field
   * that starts there, a token over both delimiters.
   */
  lemma L2StepShape(s: seq<bv8>, pos: nat, l1: bv8, l2: bv8)
    requires pos <= |s|
    ensures var (step, p) := L2StepFrom(s, pos, l1, l2);
            && (step.OutOfBound? <==> forall j :: pos <= j < |s| ==> s[j] == l2)
            && (step.RecordEnd? ==> s[p - 1] == l1 && s[p - 1] != l2 && forall j :: pos <= j < p - 1 ==> s[j] == l2)
            && (step.Field? ==> && IsToken(s, step.span, Both(l1, l2))
                                && p == step.span.End()
                                && pos <= step.span.offset
                                && forall j :: pos <= j < step.span.offset ==> s[j] == l2)
  {
  }

  /** Some field byte remains exactly when some byte is neither delimiter, and exactly when a flat token remains. */
  lemma HasMoreMeans(s: seq<bv8>, pos: nat, l1: bv8, l2: bv8)
    requires pos <= |s|
    ensures HasMore(s, pos, l1, l2) <==> exists i :: pos <= i < |s| && s[i] != l1 && s[i] != l2
    ensures HasMore(s, pos, l1, l2) <==> Tokens(s, pos, Both(l1, l2)) != []
  {
  }

  /** A field step taken while some field byte remains never runs out of bounds. */
  lemma {:induction false} StepInBounds(s: seq<bv8>, pos: nat, l1: bv8, l2: bv8)
    requires pos <= |s|
    requires HasMore(s, pos, l1, l2)
    ensures !L2StepFrom(s, pos, l1, l2).0.OutOfBound?
    ensures pos < L2StepFrom(s, pos, l1, l2).1 <= |s|
  {
    SkipMonotone(s, pos, {l2}, Both(l1, l2));
  }

  /**
   * The fields of the record at cursor `pos` and the cursor after it: take
   * field steps while some field byte remains, stopping early at a level-1 byte.
   */
  function NextRecord(s: seq<bv8>, pos: nat, l1: bv8, l2: bv8): (r: (seq<Span>, nat))
    requires pos <= |s|
    ensures pos <= r.1 <= |s|
    ensures HasMore(s, pos, l1, l2) ==> pos < r.1
    decreases |s| - pos
  {
    if !HasMore(s, pos, l1, l2) then ([], pos)
    else
      StepInBounds(s, pos, l1, l2);
      var (step, p) := L2StepFrom(s, pos, l1, l2);
      if step.Field? then
        var rest := NextRecord(s, p, l1, l2);
        ([step.span] + rest.0, rest.1)
      else ([], p)
  }

  /** The field lists of successive `NextToken` calls from `pos` while tokens remain. */
  function Records(s: seq<bv8>, pos: nat, l1: bv8, l2: bv8): (r: seq<seq<Span>>)
    requires pos <= |s|
    ensures |r| > 0 <==> HasMore(s, pos, l1, l2)
    decreases |s| - pos
  {
    if !HasMore(s, pos, l1, l2) then []
    else
      var first := NextRecord(s, pos, l1, l2);
      [first.0] + Records(s, first.1, l1, l2)
  }

  /**
   * The fields of one record are exactly the flat tokens (split on both
   * delimiters) up to the cursor the record leaves behind.
   */
  lemma {:induction false} NextRecordIsTokenPrefix(s: seq<bv8>, pos: nat, l1: bv8, l2: bv8)
    requires pos <= |s|
    ensures NextRecord(s, pos, l1, l2).0 + Tokens(s, NextRecord(s, pos, l1, l2).1, Both(l1, l2))
            == Tokens(s, pos, Both(l1, l2))
    decreases |s| - pos
  {
    if HasMore(s, pos, l1, l2) {
      StepInBounds(s, pos, l1, l2);
      var k := SkipFrom(s, pos, {l2});
      if s[k] == l1 {
        RecordEndStep(s, pos, l1, l2);
      } else {
        var e := ScanFrom(s, k, Both(l1, l2));
        NextRecordIsTokenPrefix(s, e, l1, l2);
        FieldStep(s, pos, l1, l2);
      }
    }
  }

  /** A record interrupted by a level-1 byte leaves the flat tokens untouched. */
  lemma RecordEndStep(s: seq<bv8>, pos: nat, l1: bv8, l2: bv8)
    requires pos <= |s| && HasMore(s, pos, l1, l2)
    requires SkipFrom(s, pos, {l2}) < |s| && s[SkipFrom(s, pos, {l2})] == l1
    ensures NextRecord(s, pos, l1, l2) == ([], SkipFrom(s, pos, {l2}) + 1)
    ensures Tokens(s, SkipFrom(s, pos, {l2}) + 1, Both(l1, l2)) == Tokens(s, pos, Both(l1, l2))
  {
    var k := SkipFrom(s, pos, {l2});
    assert L2StepFrom(s, pos, l1, l2) == (RecordEnd, k + 1);
    TokensOverDelimiters(s, pos, k + 1, Both(l1, l2));
  }

  /** A field step takes the first flat token; the rest of the record then lines up with the rest of the tokens. */
  lemma FieldStep(s: seq<bv8>, pos: nat, l1: bv8, l2: bv8)
    requires pos <= |s| && HasMore(s, pos, l1, l2)
    requires SkipFrom(s, pos, {l2}) < |s| && s[SkipFrom(s, pos, {l2})] != l1
    requires var e := ScanFrom(s, SkipFrom(s, pos, {l2}), Both(l1, l2));
             NextRecord(s, e, l1, l2).0 + Tokens(s, NextRecord(s, e, l1, l2).1, Both(l1, l2))
             == Tokens(s, e, Both(l1, l2))
    ensures NextRecord(s, pos, l1, l2).0 + Tokens(s, NextRecord(s, pos, l1, l2).1, Both(l1, l2))
            == Tokens(s, pos, Both(l1, l2))
  {
    var k := SkipFrom(s, pos, {l2});
    var e := ScanFrom(s, k, Both(l1, l2));
    FieldRecord(s, pos, l1, l2);
    FieldToken(s, pos, l1, l2);
    Glue(NextRecord(s, pos, l1, l2).0, Tokens(s, NextRecord(s, pos, l1, l2).1, Both(l1, l2)), Tokens(s, pos, Both(l1, l2)),
         Span(k, e - k), NextRecord(s, e, l1, l2).0, Tokens(s, e, Both(l1, l2)));
  }

  /** Unfolding one field step of a record. */
  lemma FieldRecord(s: seq<bv8>, pos: nat, l1: bv8, l2: bv8)
    requires pos <= |s| && HasMore(s, pos, l1, l2)
    requires SkipFrom(s, pos, {l2}) < |s| && s[SkipFrom(s, pos, {l2})] != l1
    ensures var k := SkipFrom(s, pos, {l2});
            var e := ScanFrom(s, k, Both(l1, l2));
            NextRecord(s, pos, l1, l2) == ([Span(k, e - k)] + NextRecord(s, e, l1, l2).0, NextRecord(s, e, l1, l2).1)
  {
    var k := SkipFrom(s, pos, {l2});
    var e := ScanFrom(s, k, Both(l1, l2));
    assert L2StepFrom(s, pos, l1, l2) == (Field(Span(k, e - k)), e);
  }

  /** The flat token found where a field step starts. */
  lemma FieldToken(s: seq<bv8>, pos: nat, l1: bv8, l2: bv8)
    requires pos <= |s| && HasMore(s, pos, l1, l2)
    requires SkipFrom(s, pos, {l2}) < |s| && s[SkipFrom(s, pos, {l2})] != l1
    ensures var k := SkipFrom(s, pos, {l2});
            var e := ScanFrom(s, k, Both(l1, l2));
            Tokens(s, pos, Both(l1, l2)) == [Span(k, e - k)] + Tokens(s, e, Both(l1, l2))
  {
    SkipFromUnique(s, pos, Both(l1, l2), SkipFrom(s, pos, {l2}));
  }

  lemma Glue<T>(a: seq<T>, b: seq<T>, t: seq<T>, x: T, ra: seq<T>, rt: seq<T>)
    requires a == [x] + ra && t == [x] + rt && ra + b == rt
    ensures a + b == t
  {
    assert a + b == [x] + (ra + b);
  }

  /** Concatenating the field lists of all records gives the flat token sequence split on both delimiters. */
  lemma {:induction false} RecordsFlatten(s: seq<bv8>, pos: nat, l1: bv8, l2: bv8)
    requires pos <= |s|
    ensures Concat(Records(s, pos, l1, l2)) == Tokens(s, pos, Both(l1, l2))
    decreases |s| - pos
  {
    if HasMore(s, pos, l1, l2) {
      var r := NextRecord(s, pos, l1, l2);
      NextRecordIsTokenPrefix(s, pos, l1, l2);
      RecordsFlatten(s, r.1, l1, l2);
      assert ([r.0] + Records(s, r.1, l1, l2))[1..] == Records(s, r.1, l1, l2);
    }
  }

  /** Every field of a record is non-empty, in bounds and free of both delimiter bytes. */
  lemma FieldsWellFormed(s: seq<bv8>, pos: nat, l1: bv8, l2: bv8)
    requires pos <= |s|
    ensures forall i :: 0 <= i < |NextRecord(s, pos, l1, l2).0| ==>
              IsToken(s, NextRecord(s, pos, l1, l2).0[i], Both(l1, l2))
  {
    var r := NextRecord(s, pos, l1, l2);
    NextRecordIsTokenPrefix(s, pos, l1, l2);
    TokensWellFormed(s, pos, Both(l1, l2));
    forall i | 0 <= i < |r.0| ensures IsToken(s, r.0[i], Both(l1, l2)) {
      assert r.0[i] == Tokens(s, pos, Both(l1, l2))[i];
    }
  }

  /**
   * Where a record stops: either no field byte remains, or the cursor sits
   * just past a level-1 byte that the record consumed.
   */
  lemma RecordEnds(s: seq<bv8>, pos: nat, l1: bv8, l2: bv8)
    requires pos <= |s|
    ensures var p := NextRecord(s, pos, l1, l2).1;
            !HasMore(s, p, l1, l2) || (pos < p && s[p - 1] == l1)
  {
    StopAt(s, pos, l1, l2, NextRecord(s, pos, l1, l2).1);
  }

  /** RecordEnds, with the cursor the record leaves named `p`. */
  lemma {:induction false} StopAt(s: seq<bv8>, pos: nat, l1: bv8, l2: bv8, p: nat)
    requires pos <= |s| && p == NextRecord(s, pos, l1, l2).1
    ensures p <= |s|
    ensures !HasMore(s, p, l1, l2) || (pos < p && s[p - 1] == l1)
    decreases |s| - pos
  {
    if HasMore(s, pos, l1, l2) {
      StepInBounds(s, pos, l1, l2);
      var k := SkipFrom(s, pos, {l2});
      if s[k] == l1 {
        RecordEndStep(s, pos, l1, l2);
      } else {
        var e := ScanFrom(s, k, Both(l1, l2));
        FieldRecord(s, pos, l1, l2);
        StopAt(s, e, l1, l2, p);
      }
    }
  }

  /**
   * A record stops at the first level-1 byte it meets: every byte it passes
   * before its last one is a level-2 byte or a field byte.
   */
  lemma RecordStopsAtFirstL1(s: seq<bv8>, pos: nat, l1: bv8, l2: bv8)
    requires pos <= |s| && l1 != l2
    ensures forall j :: pos <= j < NextRecord(s, pos, l1, l2).1 - 1 ==> s[j] != l1
  {
    FirstL1At(s, pos, l1, l2, NextRecord(s, pos, l1, l2).1);
  }

  /** RecordStopsAtFirstL1, with the cursor the record leaves named `p`. */
  lemma {:induction false} FirstL1At(s: seq<bv8>, pos: nat, l1: bv8, l2: bv8, p: nat)
    requires pos <= |s| && l1 != l2 && p == NextRecord(s, pos, l1, l2).1
    ensures forall j :: pos <= j < p - 1 ==> s[j] != l1
    decreases |s| - pos
  {
    if HasMore(s, pos, l1, l2) {
      StepInBounds(s, pos, l1, l2);
      var k := SkipFrom(s, pos, {l2});
      assert forall j :: pos <= j < k ==> s[j] in {l2};
      if s[k] == l1 {
        RecordEndStep(s, pos, l1, l2);
      } else {
        var e := ScanFrom(s, k, Both(l1, l2));
        assert forall j :: k <= j < e ==> s[j] !in Both(l1, l2);
        FieldRecord(s, pos, l1, l2);
        FirstL1At(s, e, l1, l2, p);
      }
    }
  }

  /**
   * With both levels on the same byte, skipping level-2 bytes also skips
   * every level-1 byte, so a record never ends early: one call returns all
   * remaining fields and no field byte is left behind.
   */
  lemma SameDelimitersOneRecord(s: seq<bv8>, pos: nat, d: bv8)
    requires pos <= |s|
    ensures NextRecord(s, pos, d, d).0 == Tokens(s, pos, {d})
    ensures !HasMore(s, NextRecord(s, pos, d, d).1, d, d)
  {
    var q := NextRecord(s, pos, d, d).1;
    NoEarlyEnd(s, pos, d, q);
    NextRecordIsTokenPrefix(s, pos, d, d);
    assert Both(d, d) == {d};
    assert Tokens(s, q, {d}) == [];
  }

  /** With one byte for both levels, the record leaves cursor `p` with no field byte after it. */
  lemma {:induction false} NoEarlyEnd(s: seq<bv8>, pos: nat, d: bv8, p: nat)
    requires pos <= |s| && p == NextRecord(s, pos, d, d).1
    ensures p <= |s| && !HasMore(s, p, d, d)
    decreases |s| - pos
  {
    if HasMore(s, pos, d, d) {
      StepInBounds(s, pos, d, d);
      var k := SkipFrom(s, pos, {d});
      assert s[k] != d;
      FieldRecord(s, pos, d, d);
      NoEarlyEnd(s, ScanFrom(s, k, Both(d, d)), d, p);
    }
  }

  /** One field step of a record, as `NextRecord` takes it while some field byte remains. */
  lemma RecordStep(s: seq<bv8>, pos: nat, l1: bv8, l2: bv8)
    requires pos <= |s| && HasMore(s, pos, l1, l2)
    ensures var (step, p) := L2StepFrom(s, pos, l1, l2);
            && pos < p <= |s|
            && !step.OutOfBound?
            && (step.RecordEnd? ==> NextRecord(s, pos, l1, l2) == ([], p))
            && (step.Field? ==> NextRecord(s, pos, l1, l2) == ([step.span] + NextRecord(s, p, l1, l2).0, NextRecord(s, p, l1, l2).1))
  {
    StepInBounds(s, pos, l1, l2);
  }

  /** Loop bookkeeping: a record that ends here adds nothing to the fields collected so far. */
  lemma AppendNothing(whole: (seq<Span>, nat), here: (seq<Span>, nat), result: seq<Span>)
    requires whole == (result + here.0, here.1) && here.0 == []
    ensures whole == (result, here.1)
  {
    assert result + [] == result;
  }

  /** Loop bookkeeping: a field taken here moves from the rest of the record to the fields collected. */
  lemma AppendField(whole: (seq<Span>, nat), here: (seq<Span>, nat), next: (seq<Span>, nat), result: seq<Span>, field: Span)
    requires whole == (result + here.0, here.1) && here == ([field] + next.0, next.1)
    ensures whole == ((result + [field]) + next.0, next.1)
  {
    assert result + ([field] + next.0) == (result + [field]) + next.0;
  }

  class ByteTwoLevelsTokenizer {
    var currentPosition: nat
    const maxPosition: nat
    const bytes: array<bv8>
    const delimiterL1: bv8
    const delimiterL2: bv8

    ghost predicate Valid()
      reads this
    {
      maxPosition == bytes.Length && currentPosition <= maxPosition
    }

    constructor (bytes: array<bv8>, delimiterL1: bv8, delimiterL2: bv8)
      ensures Valid()
      ensures this.bytes == bytes && this.delimiterL1 == delimiterL1 && this.delimiterL2 == delimiterL2
      ensures currentPosition == 0
    {
      this.bytes := bytes;
      this.delimiterL1 := delimiterL1;
      this.delimiterL2 := delimiterL2;
      currentPosition := 0;
      maxPosition := bytes.Length;
    }

    /** True iff some byte at or after the cursor is neither delimiter; the cursor stays put. */
    method HasMoreTokens() returns (more: bool)
      requires Valid()
      ensures more <==> exists i :: currentPosition <= i < bytes.Length &&
                                    bytes[i] != delimiterL1 && bytes[i] != delimiterL2
      ensures more == HasMore(bytes[..], currentPosition, delimiterL1, delimiterL2)
    {
      var newPosition := SkipDelimiters(currentPosition);
      more := newPosition < maxPosition;
    }

    /**
     * The fields of the next record.  The result is empty, and nothing is
     * thrown, when the record is empty or no tokens remain.
     */
    method NextToken() returns (result: seq<Span>)
      requires Valid()
      modifies this`currentPosition
      ensures Valid()
      ensures (result, currentPosition) == NextRecord(bytes[..], old(currentPosition), delimiterL1, delimiterL2)
    {
      ghost var s := bytes[..];
      result := [];
      var more := HasMoreTokens();
      assert NextRecord(s, currentPosition, delimiterL1, delimiterL2).0 ==
             result + NextRecord(s, currentPosition, delimiterL1, delimiterL2).0;
      while more
        invariant Valid()
        invariant old(currentPosition) <= currentPosition
        invariant more == HasMore(s, currentPosition, delimiterL1, delimiterL2)
        invariant NextRecord(s, old(currentPosition), delimiterL1, delimiterL2) ==
                  (result + NextRecord(s, currentPosition, delimiterL1, delimiterL2).0,
                   NextRecord(s, currentPosition, delimiterL1, delimiterL2).1)
        decreases maxPosition - currentPosition
      {
        ghost var before := currentPosition;
        RecordStep(s, before, delimiterL1, delimiterL2);
        var byteBuffer := NextL2Token();
        if byteBuffer.RecordEnd? {
          AppendNothing(NextRecord(s, old(currentPosition), delimiterL1, delimiterL2),
                        NextRecord(s, before, delimiterL1, delimiterL2), result);
          return;
        }
        AppendField(NextRecord(s, old(currentPosition), delimiterL1, delimiterL2),
                    NextRecord(s, before, delimiterL1, delimiterL2),
                    NextRecord(s, currentPosition, delimiterL1, delimiterL2), result, byteBuffer.span);
        result := result + [byteBuffer.span];
        more := HasMoreTokens();
      }
      AppendNothing(NextRecord(s, old(currentPosition), delimiterL1, delimiterL2),
                    NextRecord(s, currentPosition, delimiterL1, delimiterL2), result);
    }

    /** One field step; OutOfBound stands for the NoSuchElementException thrown at the end of the array. */
    method NextL2Token() returns (step: L2Step)
      requires Valid()
      modifies this`currentPosition
      ensures Valid()
      ensures (step, currentPosition) == L2StepFrom(bytes[..], old(currentPosition), delimiterL1, delimiterL2)
    {
      currentPosition := SkipL2Delimiters(currentPosition);
      if currentPosition >= maxPosition {
        return OutOfBound;
      }
      if bytes[currentPosition] == delimiterL1 {
        currentPosition := currentPosition + 1;
        return RecordEnd;
      }
      var startPosition := currentPosition;
      currentPosition := ScanToken(currentPosition);
      var length := currentPosition - startPosition;
      step := Field(Span(startPosition, length));
    }

    /** The number of fields (not records) left, split on both delimiters; the cursor does not move. */
    method CountTokens() returns (tokenNums: nat)
      requires Valid()
      ensures tokenNums == |Tokens(bytes[..], currentPosition, Both(delimiterL1, delimiterL2))|
    {
      ghost var d := Both(delimiterL1, delimiterL2);
      tokenNums := 0;
      var position := currentPosition;
      while position < maxPosition
        invariant currentPosition <= position <= maxPosition
        invariant tokenNums + |Tokens(bytes[..], position, d)| == |Tokens(bytes[..], currentPosition, d)|
        decreases maxPosition - position
      {
        TokensFromSkip(bytes[..], position, d);
        position := SkipDelimiters(position);
        if position >= maxPosition {
          break;
        }
        position := ScanToken(position);
        tokenNums := tokenNums + 1;
      }
    }

    /** The first position at or after `startPosition` holding neither delimiter. */
    method SkipDelimiters(startPosition: nat) returns (position: nat)
      requires Valid() && startPosition <= maxPosition
      ensures position == SkipFrom(bytes[..], startPosition, Both(delimiterL1, delimiterL2))
    {
      position := startPosition;
      while position < maxPosition
        invariant startPosition <= position <= maxPosition
        invariant SkipFrom(bytes[..], position, Both(delimiterL1, delimiterL2)) ==
                  SkipFrom(bytes[..], startPosition, Both(delimiterL1, delimiterL2))
      {
        if IsDelimiter(position) {
          position := position + 1;
        } else {
          break;
        }
      }
    }

    /** The first position at or after `startPosition` not holding the level-2 delimiter. */
    method SkipL2Delimiters(startPosition: nat) returns (position: nat)
      requires Valid() && startPosition <= maxPosition
      ensures position == SkipFrom(bytes[..], startPosition, {delimiterL2})
    {
      position := startPosition;
      while position < maxPosition
        invariant startPosition <= position <= maxPosition
        invariant SkipFrom(bytes[..], position, {delimiterL2}) == SkipFrom(bytes[..], startPosition, {delimiterL2})
      {
        if IsL2Delimiter(position) {
          position := position + 1;
        } else {
          break;
        }
      }
    }

    /** The next position at or after `startPosition` holding either delimiter, or the end of the array. */
    method ScanToken(startPosition: nat) returns (position: nat)
      requires Valid() && startPosition <= maxPosition
      ensures position == ScanFrom(bytes[..], startPosition, Both(delimiterL1, delimiterL2))
    {
      position := startPosition;
      while position < maxPosition
        invariant startPosition <= position <= maxPosition
        invariant ScanFrom(bytes[..], position, Both(delimiterL1, delimiterL2)) ==
                  ScanFrom(bytes[..], startPosition, Both(delimiterL1, delimiterL2))
      {
        if IsDelimiter(position) {
          break;
        }
        position := position + 1;
      }
    }

    /** The byte test of the field scan: the byte is in the delimiter set of both levels. */
    predicate IsDelimiter(position: nat)
      reads this, bytes
      requires position < bytes.Length
      ensures IsDelimiter(position) <==> bytes[..][position] in Both(delimiterL1, delimiterL2)
    {
      bytes[position] == delimiterL1 || bytes[position] == delimiterL2
    }

    /** The byte test of the level-2 skip: the byte is in the level-2 delimiter set. */
    predicate IsL2Delimiter(position: nat)
      reads this, bytes
      requires position < bytes.Length
      ensures IsL2Delimiter(position) <==> bytes[..][position] in {delimiterL2}
    {
      bytes[position] == delimiterL2
    }
  }

  /** The bytes of "a b,c", "a,,b" and the delimiters ',' (level 1) and ' ' (level 2). */
  const Comma: bv8 := 0x2C
  const Space: bv8 := 0x20
  const TwoRecordBytes: seq<bv8> := [0x61, 0x20, 0x62, 0x2C, 0x63]
  const EmptyRecordBytes: seq<bv8> := [0x61, 0x2C, 0x2C, 0x62]

  /** A record step that finds a field from `k` to `e`, stated with the positions given outright. */
  lemma FieldAt(s: seq<bv8>, pos: nat, l1: bv8, l2: bv8, k: nat, e: nat)
    requires pos <= k < e <= |s|
    requires SkipFrom(s, pos, {l2}) == k && s[k] != l1 && ScanFrom(s, k, Both(l1, l2)) == e
    ensures NextRecord(s, pos, l1, l2) == ([Span(k, e - k)] + NextRecord(s, e, l1, l2).0, NextRecord(s, e, l1, l2).1)
  {
    FieldRecord(s, pos, l1, l2);
  }

  /** A record step that meets the level-1 byte at `k`, stated with the position given outright. */
  lemma EndAt(s: seq<bv8>, pos: nat, l1: bv8, l2: bv8, k: nat)
    requires pos <= k < |s|
    requires SkipFrom(s, pos, {l2}) == k && s[k] == l1 && SkipFrom(s, pos, Both(l1, l2)) < |s|
    ensures NextRecord(s, pos, l1, l2) == ([], k + 1)
  {
    assert L2StepFrom(s, pos, l1, l2) == (RecordEnd, k + 1);
  }

  /** No field byte remains from `pos`: the record is empty and no records follow. */
  lemma NoneAt(s: seq<bv8>, pos: nat, l1: bv8, l2: bv8)
    requires pos <= |s| && SkipFrom(s, pos, Both(l1, l2)) == |s|
    ensures NextRecord(s, pos, l1, l2) == ([], pos)
    ensures Records(s, pos, l1, l2) == []
  {
  }

  /** Some field byte remains from `pos`: one more record is handed out. */
  lemma RecordAt(s: seq<bv8>, pos: nat, l1: bv8, l2: bv8)
    requires pos <= |s| && SkipFrom(s, pos, Both(l1, l2)) < |s|
    ensures Records(s, pos, l1, l2) == [NextRecord(s, pos, l1, l2).0] + Records(s, NextRecord(s, pos, l1, l2).1, l1, l2)
  {
  }

  /** "a b,c" gives the records ["a", "b"] and ["c"]. */
  lemma TwoRecordsExample()
    ensures Records(TwoRecordBytes, 0, Comma, Space) == [[Span(0, 1), Span(2, 1)], [Span(4, 1)]]
  {
    TwoRecordsFirst();
    TwoRecordsLast();
    SkipFromUnique(TwoRecordBytes, 0, Both(Comma, Space), 0);
    RecordAt(TwoRecordBytes, 0, Comma, Space);
  }

  /** The first record of "a b,c" is ["a", "b"] and it consumes the ','. */
  lemma TwoRecordsFirst()
    ensures NextRecord(TwoRecordBytes, 0, Comma, Space).0 == [Span(0, 1), Span(2, 1)]
    ensures NextRecord(TwoRecordBytes, 0, Comma, Space).1 == 4
  {
    var s := TwoRecordBytes;
    var d := Both(Comma, Space);
    var l2: set<bv8> := {Space};
    SkipFromUnique(s, 3, l2, 3);
    SkipFromUnique(s, 3, d, 4);
    EndAt(s, 3, Comma, Space, 3);
    SkipFromUnique(s, 1, l2, 2);
    ScanFromUnique(s, 2, d, 3);
    FieldAt(s, 1, Comma, Space, 2, 3);
    assert NextRecord(s, 1, Comma, Space).0 == [Span(2, 1)] + [];
    SkipFromUnique(s, 0, l2, 0);
    ScanFromUnique(s, 0, d, 1);
    FieldAt(s, 0, Comma, Space, 0, 1);
    assert NextRecord(s, 0, Comma, Space).0 == [Span(0, 1)] + [Span(2, 1)];
  }

  /** From the cursor after the ',' of "a b,c" one record ["c"] remains. */
  lemma TwoRecordsLast()
    ensures Records(TwoRecordBytes, 4, Comma, Space) == [[Span(4, 1)]]
  {
    var s := TwoRecordBytes;
    var d := Both(Comma, Space);
    SkipFromUnique(s, 5, d, 5);
    NoneAt(s, 5, Comma, Space);
    SkipFromUnique(s, 4, d, 4);
    SkipFromUnique(s, 4, {Space}, 4);
    ScanFromUnique(s, 4, d, 5);
    FieldAt(s, 4, Comma, Space, 4, 5);
    assert NextRecord(s, 4, Comma, Space).0 == [Span(4, 1)] + [];
    assert NextRecord(s, 4, Comma, Space).0 == [Span(4, 1)] && NextRecord(s, 4, Comma, Space).1 == 5;
    RecordAt(s, 4, Comma, Space);
  }

  /** "a,,b" gives the records ["a"], [] and ["b"]: an empty record is an empty list. */
  lemma EmptyRecordExample()
    ensures Records(EmptyRecordBytes, 0, Comma, Space) == [[Span(0, 1)], [], [Span(3, 1)]]
  {
    EmptyRecordFirst();
    EmptyRecordRest();
    SkipFromUnique(EmptyRecordBytes, 0, Both(Comma, Space), 0);
    RecordAt(EmptyRecordBytes, 0, Comma, Space);
  }

  /** The first record of "a,,b" is ["a"] and it consumes the first ','. */
  lemma EmptyRecordFirst()
    ensures NextRecord(EmptyRecordBytes, 0, Comma, Space).0 == [Span(0, 1)]
    ensures NextRecord(EmptyRecordBytes, 0, Comma, Space).1 == 2
  {
    var s := EmptyRecordBytes;
    var d := Both(Comma, Space);
    var l2: set<bv8> := {Space};
    SkipFromUnique(s, 1, l2, 1);
    SkipFromUnique(s, 1, d, 3);
    EndAt(s, 1, Comma, Space, 1);
    SkipFromUnique(s, 0, l2, 0);
    ScanFromUnique(s, 0, d, 1);
    FieldAt(s, 0, Comma, Space, 0, 1);
    assert NextRecord(s, 0, Comma, Space).0 == [Span(0, 1)] + [];
  }

  /** From the cursor after the first ',' of "a,,b" the records [] and ["b"] remain. */
  lemma EmptyRecordRest()
    ensures Records(EmptyRecordBytes, 2, Comma, Space) == [[], [Span(3, 1)]]
  {
    var s := EmptyRecordBytes;
    var d := Both(Comma, Space);
    var l2: set<bv8> := {Space};
    SkipFromUnique(s, 4, d, 4);
    NoneAt(s, 4, Comma, Space);
    SkipFromUnique(s, 3, d, 3);
    SkipFromUnique(s, 3, l2, 3);
    ScanFromUnique(s, 3, d, 4);
    FieldAt(s, 3, Comma, Space, 3, 4);
    assert NextRecord(s, 3, Comma, Space).0 == [Span(3, 1)] + [];
    assert NextRecord(s, 3, Comma, Space).0 == [Span(3, 1)] && NextRecord(s, 3, Comma, Space).1 == 4;
    RecordAt(s, 3, Comma, Space);
    assert Records(s, 3, Comma, Space) == [[Span(3, 1)]];
    SkipFromUnique(s, 2, d, 3);
    SkipFromUnique(s, 2, l2, 2);
    EndAt(s, 2, Comma, Space, 2);
    RecordAt(s, 2, Comma, Space);
  }

  /** CountTokens counts 2 on "a,,b", not 3: it counts fields, not records. */
  lemma EmptyRecordCountExample()
    ensures |Tokens(EmptyRecordBytes, 0, Both(Comma, Space))| == 2
  {
    EmptyRecordExample();
    RecordsFlatten(EmptyRecordBytes, 0, Comma, Space);
    var last: seq<seq<Span>> := [[Span(3, 1)]];
    ConcatCons([Span(3, 1)], []);
    ConcatCons([], last);
    ConcatCons([Span(0, 1)], [[]] + last);
    assert [[Span(0, 1)], [], [Span(3, 1)]] == [[Span(0, 1)]] + ([[]] + last);
  }
}
