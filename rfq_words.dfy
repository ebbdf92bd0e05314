/**
 * The phrase-frequency job: build a dictionary of phrases, then count, for
 * every sentence of the request text and every word position in it, the
 * dictionary phrases formed by the next 1..maxWordsLen words, and lay the
 * counts out as a stream of key, ",", count, line-separator elements.
 * The parallel stream and the concurrent map of the program are modelled
 * as a sequential fold into a `map<string, nat>`.
 */
module RFQWords {
  import opened Scanning

  // ---------------------------------------------------------------------------
  // String normalisation

  /** The first index at or after `i` holding a character above U+0020, or |s|. */
  function TrimLo(s: string, i: nat): (r: nat)
    requires i <= |s|
    ensures i <= r <= |s|
    ensures forall k :: i <= k < r ==> s[k] <= ' '
    ensures r < |s| ==> s[r] > ' '
    decreases |s| - i
  {
    if i < |s| && s[i] <= ' ' then TrimLo(s, i + 1) else i
  }

  /** The index just past the last character above U+0020 in s[lo..hi], or lo. */
  function TrimHi(s: string, lo: nat, hi: nat): (r: nat)
    requires lo <= hi <= |s|
    ensures lo <= r <= hi
    ensures forall k :: r <= k < hi ==> s[k] <= ' '
    ensures r > lo ==> s[r - 1] > ' '
  {
    if lo < hi && s[hi - 1] <= ' ' then TrimHi(s, lo, hi - 1) else hi
  }

  /** String.trim: the string without its leading and trailing characters up to U+0020. */
  function Trim(s: string): (r: string)
    ensures |r| <= |s|
    ensures r == [] || (r[0] > ' ' && r[|r| - 1] > ' ')
  {
    var lo := TrimLo(s, 0);
    s[lo..TrimHi(s, lo, |s|)]
  }

  /**
   * Trim keeps one contiguous piece of `s` that neither starts nor ends
   * with a character up to U+0020, and drops only such characters around it.
   */
  lemma TrimShape(s: string)
    ensures var lo := TrimLo(s, 0);
            var hi := TrimHi(s, lo, |s|);
            && Trim(s) == s[lo..hi]
            && (Trim(s) == [] || (Trim(s)[0] > ' ' && Trim(s)[|Trim(s)| - 1] > ' '))
            && (forall k :: 0 <= k < lo ==> s[k] <= ' ')
            && (forall k :: hi <= k < |s| ==> s[k] <= ' ')
  {
  }

  /** Trimming twice is trimming once. */
  lemma TrimIdempotent(s: string)
    ensures Trim(Trim(s)) == Trim(s)
  {
    var t := Trim(s);
    if t != [] {
      TrimShape(s);
      assert TrimLo(t, 0) == 0;
      assert TrimHi(t, 0, |t|) == |t|;
    }
  }

  predicate IsUpper(c: char) { 'A' <= c <= 'Z' }

  /** Lower-casing of one character, for the ASCII letters. */
  function LowerChar(c: char): (r: char)
    ensures !IsUpper(r)
    ensures IsUpper(c) ==> r as int == c as int + 32
    ensures !IsUpper(c) ==> r == c
  {
    if IsUpper(c) then (c as int + 32) as char else c
  }

  function ToLower(s: string): (r: string)
    ensures |r| == |s|
    ensures forall i :: 0 <= i < |s| ==> r[i] == LowerChar(s[i])
    ensures forall c :: c in r ==> !IsUpper(c)
  {
    var r := seq(|s|, i requires 0 <= i < |s| => LowerChar(s[i]));
    assert forall c :: c in r ==> exists i :: 0 <= i < |r| && r[i] == c;
    r
  }

  // ---------------------------------------------------------------------------
  // Dictionary

  /** The tokens of `s` split on `c`, as StringTokenizer(s, c) lists them. */
  function Split(s: string, c: char): (r: seq<string>)
    ensures forall i :: 0 <= i < |r| ==> |r[i]| >= 1
    ensures forall i, j :: 0 <= i < |r| && 0 <= j < |r[i]| ==> r[i][j] != c && r[i][j] in s
  {
    TokenElements(s, 0, {c});
    TokenContents(s, 0, {c})
  }

  /** A phrase's word count: StringTokenizer(phrase, " ").countTokens(). */
  function WordCount(phrase: string): (r: nat)
    ensures r == |Split(phrase, ' ')|
    ensures r == 0 <==> forall i :: 0 <= i < |phrase| ==> phrase[i] == ' '
  {
    |Tokens(phrase, 0, {' '})|
  }

  /** The dictionary records, each trimmed, in file order. */
  function TrimmedRecords(dictContent: string): (r: seq<string>)
    ensures |r| == |Split(dictContent, ',')|
    ensures forall i :: 0 <= i < |r| ==> r[i] == Trim(Split(dictContent, ',')[i])
  {
    var records := Split(dictContent, ',');
    seq(|records|, i requires 0 <= i < |records| => Trim(records[i]))
  }

  /** The dictionary: the set of trimmed records; phrases are not lower-cased. */
  function Phrases(dictContent: string): (r: set<string>)
    ensures forall i :: 0 <= i < |Split(dictContent, ',')| ==> Trim(Split(dictContent, ',')[i]) in r
    ensures forall p :: p in r ==> exists i :: 0 <= i < |Split(dictContent, ',')| && Trim(Split(dictContent, ',')[i]) == p
  {
    set i | 0 <= i < |TrimmedRecords(dictContent)| :: TrimmedRecords(dictContent)[i]
  }

  /** Every phrase is trimmed, free of ',', and duplicates collapse. */
  lemma PhrasesShape(dictContent: string)
    ensures forall p :: p in Phrases(dictContent) ==> Trim(p) == p && ',' !in p
    ensures |Phrases(dictContent)| <= |Split(dictContent, ',')|
  {
    forall p | p in Phrases(dictContent) ensures Trim(p) == p && ',' !in p {
      var i :| 0 <= i < |TrimmedRecords(dictContent)| && TrimmedRecords(dictContent)[i] == p;
      RecordPhraseShape(dictContent, i);
    }
    CardinalityOfImage(TrimmedRecords(dictContent));
  }

  lemma RecordPhraseShape(dictContent: string, i: nat)
    requires i < |Split(dictContent, ',')|
    ensures Trim(TrimmedRecords(dictContent)[i]) == TrimmedRecords(dictContent)[i]
    ensures ',' !in TrimmedRecords(dictContent)[i]
  {
    var record := Split(dictContent, ',')[i];
    TrimIdempotent(record);
    TrimKeepsCharacters(record);
    TokenElements(dictContent, 0, {','});
    assert ',' !in record;
  }

  /** Trim only drops characters. */
  lemma TrimKeepsCharacters(s: string)
    ensures forall c :: c in Trim(s) ==> c in s
  {
    var lo := TrimLo(s, 0);
    var t := Trim(s);
    forall c | c in t ensures c in s {
      var j :| 0 <= j < |t| && t[j] == c;
      assert s[lo + j] == c;
    }
  }

  /** The set of elements of a sequence has no more elements than the sequence. */
  lemma {:induction false} CardinalityOfImage<T>(xs: seq<T>)
    ensures |set i | 0 <= i < |xs| :: xs[i]| <= |xs|
  {
    if |xs| > 0 {
      var init := xs[..|xs| - 1];
      CardinalityOfImage(init);
      var a := set i | 0 <= i < |init| :: init[i];
      var b := set i | 0 <= i < |xs| :: xs[i];
      assert b == a + {xs[|xs| - 1]} by {
        forall x | x in b ensures x in a + {xs[|xs| - 1]} {
          var i :| 0 <= i < |xs| && xs[i] == x;
          if i < |xs| - 1 {
            assert init[i] == x;
          }
        }
      }
    }
  }

  /** The largest word count among `phrases`: an attained upper bound, or 0 for none. */
  function MaxWordsLen(phrases: seq<string>): (r: nat)
    ensures forall i :: 0 <= i < |phrases| ==> WordCount(phrases[i]) <= r
    ensures |phrases| == 0 ==> r == 0
    ensures |phrases| > 0 ==> exists i :: 0 <= i < |phrases| && WordCount(phrases[i]) == r
  {
    if |phrases| == 0 then 0
    else
      var rest := phrases[1..];
      var m := MaxWordsLen(rest);
      assert forall i :: 1 <= i < |phrases| ==> phrases[i] == rest[i - 1];
      if WordCount(phrases[0]) < m then
        assert exists j :: 0 <= j < |rest| && WordCount(rest[j]) == m;
        m
      else WordCount(phrases[0])
  }

  /** The same maximum, stated over the dictionary set as the reduction computes it. */
  lemma MaxWordsLenOfDictionary(dictContent: string)
    ensures var m := MaxWordsLen(TrimmedRecords(dictContent));
            && (forall p :: p in Phrases(dictContent) ==> WordCount(p) <= m)
            && (Phrases(dictContent) == {} ==> m == 0)
            && (Phrases(dictContent) != {} ==> exists p :: p in Phrases(dictContent) && WordCount(p) == m)
  {
    var ps := TrimmedRecords(dictContent);
    if |ps| > 0 {
      assert ps[0] in Phrases(dictContent);
      var i :| 0 <= i < |ps| && WordCount(ps[i]) == MaxWordsLen(ps);
      assert ps[i] in Phrases(dictContent);
    }
  }

  // ---------------------------------------------------------------------------
  // Sentences and windows

  /** The words of a sentence: trimmed, lower-cased, split on ' '; each is non-empty, space-free and lower-case. */
  function Words(sentence: string): (r: seq<string>)
    ensures WellFormedWords(r)
  {
    Split(ToLower(Trim(sentence)), ' ')
  }

  /** Words are non-empty and contain no space and no upper-case letter. */
  predicate WellFormedWords(words: seq<string>)
  {
    forall i :: 0 <= i < |words| ==>
      |words[i]| >= 1 && forall j :: 0 <= j < |words[i]| ==> words[i][j] != ' ' && !IsUpper(words[i][j])
  }

  /** The candidate of `len` words from `start`: the words joined by single spaces. */
  function Window(words: seq<string>, start: nat, len: nat): string
    requires start + len <= |words|
  {
    Join(words[start..start + len], ' ')
  }

  /** The string builder's step: the next window is the previous one, a space, and the next word. */
  lemma WindowGrow(words: seq<string>, start: nat, len: nat)
    requires start + len < |words|
    ensures Window(words, start, len + 1) ==
            (if len == 0 then [] else Window(words, start, len) + " ") + words[start + len]
  {
    var ws := words[start..start + len + 1];
    assert ws[..len] == words[start..start + len];
    assert ws[len] == words[start + len];
  }

  /** A window of well-formed words splits back into exactly its words. */
  lemma WindowWords(words: seq<string>, start: nat, len: nat)
    requires start + len <= |words| && WellFormedWords(words)
    ensures Split(Window(words, start, len), ' ') == words[start..start + len]
    ensures WordCount(Window(words, start, len)) == len
  {
    var ws := words[start..start + len];
    forall i | 0 <= i < |ws| ensures |ws[i]| >= 1 {
      assert ws[i] == words[start + i];
    }
    forall i, j | 0 <= i < |ws| && 0 <= j < |ws[i]| ensures ws[i][j] !in {' '} {
      assert ws[i] == words[start + i];
    }
    JoinThenScan(ws, ' ', {' '});
  }

  /** A joined list of words without upper-case letters has none either. */
  lemma {:induction false} JoinNoUpper(ws: seq<string>)
    requires forall i, j :: 0 <= i < |ws| && 0 <= j < |ws[i]| ==> !IsUpper(ws[i][j])
    ensures forall j :: 0 <= j < |Join(ws, ' ')| ==> !IsUpper(Join(ws, ' ')[j])
    decreases |ws|
  {
    if |ws| > 1 {
      var init := ws[..|ws| - 1];
      JoinNoUpper(init);
      var last := ws[|ws| - 1];
      assert forall j :: 0 <= j < |last| ==> !IsUpper(last[j]);
      assert Join(ws, ' ') == Join(init, ' ') + [' '] + last;
    } else if |ws| == 1 {
      assert Join(ws, ' ') == ws[0];
    }
  }

  // ---------------------------------------------------------------------------
  // Counting, declaratively

  /** How many of the windows of 1..k words from `start` equal `p`. */
  function HitsAt(words: seq<string>, start: nat, k: nat, p: string): nat
    requires start + k <= |words|
  {
    if k == 0 then 0
    else HitsAt(words, start, k - 1, p) + (if Window(words, start, k) == p then 1 else 0)
  }

  /** How many windows the matcher grows at `start`: maxWordsLen, or fewer near the sentence end. */
  function Limit(maxWordsLen: nat, n: nat, start: nat): nat
    requires start <= n
  {
    if maxWordsLen < n - start then maxWordsLen else n - start
  }

  /** Hits of `p` at the starts below `m`. */
  function HitsBelow(words: seq<string>, maxWordsLen: nat, m: nat, p: string): nat
    requires m <= |words|
  {
    if m == 0 then 0
    else HitsBelow(words, maxWordsLen, m - 1, p) + HitsAt(words, m - 1, Limit(maxWordsLen, |words|, m - 1), p)
  }

  /** Hits of `p` in one sentence. */
  function SentenceHits(words: seq<string>, maxWordsLen: nat, p: string): nat
  {
    HitsBelow(words, maxWordsLen, |words|, p)
  }

  /** Hits of `p` summed over the sentences in order. */
  function Occurrences(sentences: seq<string>, maxWordsLen: nat, p: string): nat
  {
    if |sentences| == 0 then 0
    else Occurrences(sentences[..|sentences| - 1], maxWordsLen, p) +
         SentenceHits(Words(sentences[|sentences| - 1]), maxWordsLen, p)
  }

  /** The counts the job reports: dictionary phrases with at least one hit. */
  function Tally(sentences: seq<string>, phrases: set<string>, maxWordsLen: nat): map<string, nat>
  {
    map p | p in phrases && Occurrences(sentences, maxWordsLen, p) > 0 :: Occurrences(sentences, maxWordsLen, p)
  }

  /**
   * At one start each phrase is hit at most once, by the window whose length
   * is the phrase's word count: the count is the number of (sentence, start)
   * positions whose window equals the phrase.
   */
  lemma {:induction false} HitsAtOnce(words: seq<string>, start: nat, k: nat, p: string)
    requires start + k <= |words| && WellFormedWords(words)
    ensures HitsAt(words, start, k, p) ==
            if 1 <= WordCount(p) <= k && Window(words, start, WordCount(p)) == p then 1 else 0
  {
    if k > 0 {
      HitsAtOnce(words, start, k - 1, p);
      WindowWords(words, start, k);
    }
  }

  /** Nested hits are all counted: "world" and "world peace" both hit at the first word. */
  lemma NestedHitsExample()
    ensures HitsAt(["world", "peace"], 0, 2, "world") == 1
    ensures HitsAt(["world", "peace"], 0, 2, "world peace") == 1
  {
    var words := ["world", "peace"];
    assert words[0..1] == ["world"];
    assert words[0..2] == ["world", "peace"];
    assert Window(words, 0, 1) == "world";
    assert Window(words, 0, 2) == "world" + " " + "peace" == "world peace";
  }

  /** Overlapping hits are all counted: "a a" occurs twice in "a a a". */
  lemma OverlappingHitsExample()
    ensures SentenceHits(["a", "a", "a"], 2, "a a") == 2
  {
    var words := ["a", "a", "a"];
    assert words[0..1] == words[1..2] == words[2..3] == ["a"];
    assert words[0..2] == words[1..3] == ["a", "a"];
    assert Window(words, 0, 2) == Window(words, 1, 2) == "a a";
    assert HitsAt(words, 0, 2, "a a") == 1;
    assert HitsAt(words, 1, 2, "a a") == 1;
    assert HitsAt(words, 2, 1, "a a") == 0;
  }

  /** With maxWordsLen 0 no window is grown, so nothing is counted. */
  lemma {:induction false} ZeroWindowsNoHits(sentences: seq<string>, p: string)
    ensures Occurrences(sentences, 0, p) == 0
  {
    if |sentences| > 0 {
      ZeroWindowsNoHits(sentences[..|sentences| - 1], p);
      NoHitsBelow(Words(sentences[|sentences| - 1]), 0, |Words(sentences[|sentences| - 1])|, p);
    }
  }

  lemma {:induction false} NoHitsBelow(words: seq<string>, maxWordsLen: nat, m: nat, p: string)
    requires m <= |words| && maxWordsLen == 0
    ensures HitsBelow(words, maxWordsLen, m, p) == 0
  {
    if m > 0 {
      NoHitsBelow(words, maxWordsLen, m - 1, p);
    }
  }

  /** An empty dictionary has maxWordsLen 0 and yields no counts at all. */
  lemma EmptyDictionary(dictContent: string, sentences: seq<string>)
    requires Phrases(dictContent) == {}
    ensures MaxWordsLen(TrimmedRecords(dictContent)) == 0
    ensures Tally(sentences, Phrases(dictContent), MaxWordsLen(TrimmedRecords(dictContent))) == map[]
  {
    MaxWordsLenOfDictionary(dictContent);
  }

  /**
   * Sentences are lower-cased but phrases are not: a phrase holding an
   * upper-case letter is never counted, however often it occurs.
   */
  lemma {:induction false} UpperCasePhraseNeverCounted(sentences: seq<string>, maxWordsLen: nat, p: string)
    requires exists j :: 0 <= j < |p| && IsUpper(p[j])
    ensures Occurrences(sentences, maxWordsLen, p) == 0
  {
    if |sentences| > 0 {
      UpperCasePhraseNeverCounted(sentences[..|sentences| - 1], maxWordsLen, p);
      var words := Words(sentences[|sentences| - 1]);
      UpperNoHitsBelow(words, maxWordsLen, |words|, p);
    }
  }

  lemma {:induction false} UpperNoHitsBelow(words: seq<string>, maxWordsLen: nat, m: nat, p: string)
    requires m <= |words| && WellFormedWords(words)
    requires exists j :: 0 <= j < |p| && IsUpper(p[j])
    ensures HitsBelow(words, maxWordsLen, m, p) == 0
  {
    if m > 0 {
      UpperNoHitsBelow(words, maxWordsLen, m - 1, p);
      UpperNoHitsAt(words, m - 1, Limit(maxWordsLen, |words|, m - 1), p);
    }
  }

  lemma {:induction false} UpperNoHitsAt(words: seq<string>, start: nat, k: nat, p: string)
    requires start + k <= |words| && WellFormedWords(words)
    requires exists j :: 0 <= j < |p| && IsUpper(p[j])
    ensures HitsAt(words, start, k, p) == 0
  {
    if k > 0 {
      UpperNoHitsAt(words, start, k - 1, p);
      var ws := words[start..start + k];
      forall i, j | 0 <= i < |ws| && 0 <= j < |ws[i]| ensures !IsUpper(ws[i][j]) {
        assert ws[i] == words[start + i];
      }
      JoinNoUpper(ws);
    }
  }

  /** Occurrences add up over a split of the sentence list. */
  lemma {:induction false} OccurrencesAppend(a: seq<string>, b: seq<string>, maxWordsLen: nat, p: string)
    ensures Occurrences(a + b, maxWordsLen, p) == Occurrences(a, maxWordsLen, p) + Occurrences(b, maxWordsLen, p)
    decreases |b|
  {
    if |b| > 0 {
      var b' := b[..|b| - 1];
      OccurrencesAppend(a, b', maxWordsLen, p);
      assert (a + b)[..|a + b| - 1] == a + b';
      assert (a + b)[|a + b| - 1] == b[|b| - 1];
    } else {
      assert a + b == a;
    }
  }

  /** Counts are a sum over sentences: any order of the same sentences gives the same counts. */
  lemma {:induction false} OccurrencesPermutation(a: seq<string>, b: seq<string>, maxWordsLen: nat, p: string)
    requires multiset(a) == multiset(b)
    ensures Occurrences(a, maxWordsLen, p) == Occurrences(b, maxWordsLen, p)
    decreases |a|
  {
    if |a| > 0 {
      var x := a[|a| - 1];
      var a' := a[..|a| - 1];
      assert a == a' + [x];
      assert x in multiset(b);
      var i :| 0 <= i < |b| && b[i] == x;
      var pre, post := b[..i], b[i + 1..];
      assert b == (pre + [x]) + post;
      RemoveOne(a', x, pre, post);
      OccurrencesPermutation(a', pre + post, maxWordsLen, p);
      OccurrencesAppend(pre + [x], post, maxWordsLen, p);
      OccurrencesAppend(pre, post, maxWordsLen, p);
      assert (pre + [x])[..|pre|] == pre;
    }
  }

  lemma RemoveOne<T>(a: seq<T>, x: T, pre: seq<T>, post: seq<T>)
    requires multiset(a + [x]) == multiset((pre + [x]) + post)
    ensures multiset(a) == multiset(pre + post)
  {
    assert multiset(a + [x]) == multiset(a) + multiset{x};
    assert multiset((pre + [x]) + post) == multiset(pre) + multiset{x} + multiset(post);
    assert multiset(pre + post) == multiset(pre) + multiset(post);
    var m, n := multiset(a), multiset(pre + post);
    assert m + multiset{x} == n + multiset{x};
    forall y ensures m[y] == n[y] {
      assert (m + multiset{x})[y] == (n + multiset{x})[y];
    }
  }

  /** The reported counts do not depend on the order in which sentences are processed. */
  lemma TallyPermutation(a: seq<string>, b: seq<string>, phrases: set<string>, maxWordsLen: nat)
    requires multiset(a) == multiset(b)
    ensures Tally(a, phrases, maxWordsLen) == Tally(b, phrases, maxWordsLen)
  {
    forall p | p in phrases ensures Occurrences(a, maxWordsLen, p) == Occurrences(b, maxWordsLen, p) {
      OccurrencesPermutation(a, b, maxWordsLen, p);
    }
  }

  // ---------------------------------------------------------------------------
  // Counting, as the program does it

  /** computeIfAbsent(...).get(): the count so far, 0 when absent. */
  function Get(table: map<string, nat>, p: string): nat
  {
    if p in table then table[p] else 0
  }

  /** Every key of the table is a dictionary phrase with a count of at least 1. */
  predicate Sound(table: map<string, nat>, phrases: set<string>)
  {
    forall p :: p in table ==> p in phrases && table[p] >= 1
  }

  /** Hits of a dictionary phrase; other strings are never counted. */
  function Hits(phrases: set<string>, words: seq<string>, start: nat, k: nat, p: string): nat
    requires start + k <= |words|
  {
    if p in phrases then HitsAt(words, start, k, p) else 0
  }

  /** The inner loop at one start index: grow windows word by word and count dictionary hits. */
  method CountAtStart(words: seq<string>, start: nat, phrases: set<string>, maxWordsLen: nat,
                      table: map<string, nat>) returns (result: map<string, nat>)
    requires start < |words|
    requires Sound(table, phrases)
    ensures Sound(result, phrases)
    ensures forall p :: Get(result, p) == Get(table, p) + Hits(phrases, words, start, Limit(maxWordsLen, |words|, start), p)
  {
    result := table;
    var builder: string := "";
    var pos := 0;
    while pos < maxWordsLen && start + pos < |words|
      invariant pos <= Limit(maxWordsLen, |words|, start)
      invariant builder == if pos == 0 then [] else Window(words, start, pos) + " "
      invariant Sound(result, phrases)
      invariant forall p :: Get(result, p) == Get(table, p) + Hits(phrases, words, start, pos, p)
    {
      WindowGrow(words, start, pos);
      builder := builder + words[start + pos];
      var part := builder;
      builder := builder + " ";
      CountOneWindow(result, table, phrases, words, start, pos, part);
      if part in phrases {
        result := result[part := Get(result, part) + 1];
      }
      pos := pos + 1;
    }
  }

  /** Counting the window of pos + 1 words keeps the table sound and the counts exact. */
  lemma CountOneWindow(result: map<string, nat>, table: map<string, nat>, phrases: set<string>,
                       words: seq<string>, start: nat, pos: nat, part: string)
    requires start + pos < |words| && part == Window(words, start, pos + 1)
    requires Sound(result, phrases)
    requires forall p :: Get(result, p) == Get(table, p) + Hits(phrases, words, start, pos, p)
    ensures var next := if part in phrases then result[part := Get(result, part) + 1] else result;
            && Sound(next, phrases)
            && forall p :: Get(next, p) == Get(table, p) + Hits(phrases, words, start, pos + 1, p)
  {
  }

  /** One sentence: the inner loop at every start index. */
  method CountSentence(words: seq<string>, phrases: set<string>, maxWordsLen: nat,
                       table: map<string, nat>) returns (result: map<string, nat>)
    requires Sound(table, phrases)
    ensures Sound(result, phrases)
    ensures forall p :: Get(result, p) == Get(table, p) + (if p in phrases then SentenceHits(words, maxWordsLen, p) else 0)
  {
    result := table;
    for start := 0 to |words|
      invariant Sound(result, phrases)
      invariant forall p :: Get(result, p) == Get(table, p) + (if p in phrases then HitsBelow(words, maxWordsLen, start, p) else 0)
    {
      result := CountAtStart(words, start, phrases, maxWordsLen, result);
    }
  }

  /** All sentences folded into one table; the result is exactly the tally. */
  method CountPhrases(sentences: seq<string>, phrases: set<string>, maxWordsLen: nat) returns (resultMap: map<string, nat>)
    ensures resultMap == Tally(sentences, phrases, maxWordsLen)
  {
    resultMap := map[];
    for i := 0 to |sentences|
      invariant Sound(resultMap, phrases)
      invariant forall p :: Get(resultMap, p) == (if p in phrases then Occurrences(sentences[..i], maxWordsLen, p) else 0)
    {
      assert sentences[..i + 1][..i] == sentences[..i];
      var words := Words(sentences[i]);
      resultMap := CountSentence(words, phrases, maxWordsLen, resultMap);
    }
    assert sentences[..|sentences|] == sentences;
    TableIsTally(resultMap, sentences, phrases, maxWordsLen);
  }

  /** A sound table that agrees with the counts everywhere is the tally. */
  lemma TableIsTally(table: map<string, nat>, sentences: seq<string>, phrases: set<string>, maxWordsLen: nat)
    requires Sound(table, phrases)
    requires forall p :: Get(table, p) == (if p in phrases then Occurrences(sentences, maxWordsLen, p) else 0)
    ensures table == Tally(sentences, phrases, maxWordsLen)
  {
  }

  // ---------------------------------------------------------------------------
  // Output layout

  /** The ASCII digit for 0..9. */
  function Digit(d: nat): char
    requires d < 10
  {
    (48 + d) as char
  }

  /** Integer.toString for a non-negative count. */
  function NatToString(n: nat): (r: string)
    ensures |r| >= 1
    ensures forall i :: 0 <= i < |r| ==> '0' <= r[i] <= '9'
    ensures |r| > 1 ==> r[0] != '0'
  {
    if n < 10 then [Digit(n)] else NatToString(n / 10) + [Digit(n % 10)]
  }

  /** Reading a decimal digit string back. */
  function ParseDecimal(s: string): nat
    requires forall i :: 0 <= i < |s| ==> '0' <= s[i] <= '9'
  {
    if |s| == 0 then 0 else ParseDecimal(s[..|s| - 1]) * 10 + (s[|s| - 1] as int - 48)
  }

  /** The printed count reads back as the count. */
  lemma {:induction false} NatToStringRoundTrip(n: nat)
    ensures ParseDecimal(NatToString(n)) == n
  {
    if n >= 10 {
      NatToStringRoundTrip(n / 10);
      var s := NatToString(n);
      assert s[..|s| - 1] == NatToString(n / 10);
    }
  }

  /** Element `i` of the output stream, by `i % 4`. */
  function Element(entries: seq<(string, nat)>, lineSeparator: string, i: nat): (r: string)
    requires i < 4 * |entries|
    ensures i % 4 == 0 ==> r == entries[i / 4].0
    ensures i % 4 == 1 ==> r == ","
    ensures i % 4 == 2 ==> (forall j :: 0 <= j < |r| ==> '0' <= r[j] <= '9') && ParseDecimal(r) == entries[i / 4].1
    ensures i % 4 == 3 ==> r == lineSeparator
  {
    match i % 4
    case 0 => entries[i / 4].0
    case 1 => ","
    case 2 =>
      NatToStringRoundTrip(entries[i / 4].1);
      NatToString(entries[i / 4].1)
    case 3 => lineSeparator
    case _ => ""
  }

  /** The output stream: four elements per entry. */
  function Layout(entries: seq<(string, nat)>, lineSeparator: string): (r: seq<string>)
    ensures |r| == 4 * |entries|
  {
    seq(4 * |entries|, i requires 0 <= i < 4 * |entries| => Element(entries, lineSeparator, i))
  }

  /** One line per entry: key, ",", count, line separator. */
  function Lines(entries: seq<(string, nat)>, lineSeparator: string): seq<string>
  {
    if |entries| == 0 then []
    else [entries[0].0, ",", NatToString(entries[0].1), lineSeparator] + Lines(entries[1..], lineSeparator)
  }

  /** The index layout is the key, ",", count, separator sequence, entry after entry. */
  lemma {:induction false} LayoutIsLines(entries: seq<(string, nat)>, lineSeparator: string)
    ensures Layout(entries, lineSeparator) == Lines(entries, lineSeparator)
    decreases |entries|
  {
    if |entries| > 0 {
      var rest := entries[1..];
      LayoutIsLines(rest, lineSeparator);
      var l := Layout(entries, lineSeparator);
      var head := [entries[0].0, ",", NatToString(entries[0].1), lineSeparator];
      var tail := Layout(rest, lineSeparator);
      forall i | 0 <= i < |l| ensures l[i] == (head + tail)[i] {
        if i < 4 {
          ElementHead(entries, lineSeparator, i);
        } else {
          ElementShift(entries, lineSeparator, i);
        }
      }
      assert l == head + tail;
    }
  }

  /** The first four elements are the first entry's line. */
  lemma ElementHead(entries: seq<(string, nat)>, lineSeparator: string, i: nat)
    requires i < 4 <= 4 * |entries|
    ensures Element(entries, lineSeparator, i) == [entries[0].0, ",", NatToString(entries[0].1), lineSeparator][i]
  {
    assert i / 4 == 0 && i % 4 == i;
  }

  /** Past the first entry, the layout is the layout of the remaining entries. */
  lemma ElementShift(entries: seq<(string, nat)>, lineSeparator: string, i: nat)
    requires 4 <= i < 4 * |entries|
    ensures Element(entries, lineSeparator, i) == Element(entries[1..], lineSeparator, i - 4)
  {
    assert (i - 4) / 4 == i / 4 - 1 && (i - 4) % 4 == i % 4;
    assert entries[1..][(i - 4) / 4] == entries[i / 4];
  }

  /** `entries` lists each key of `m` once, with its count, in some order. */
  predicate IsEntryList(entries: seq<(string, nat)>, m: map<string, nat>)
  {
    && |entries| == |m|
    && (forall i :: 0 <= i < |entries| ==> entries[i].0 in m && m[entries[i].0] == entries[i].1)
    && (forall i, j :: 0 <= i < j < |entries| ==> entries[i].0 != entries[j].0)
    && (forall k :: k in m ==> exists i :: 0 <= i < |entries| && entries[i].0 == k)
  }

  /** new ArrayList<>(resultMap.entrySet()): the entries in an unspecified order. */
  method EntriesOf(m: map<string, nat>) returns (entries: seq<(string, nat)>)
    ensures IsEntryList(entries, m)
  {
    entries := [];
    var keys := m.Keys;
    while keys != {}
      invariant keys <= m.Keys
      invariant |entries| + |keys| == |m|
      invariant forall i :: 0 <= i < |entries| ==> entries[i].0 in m && entries[i].0 !in keys && m[entries[i].0] == entries[i].1
      invariant forall i, j :: 0 <= i < j < |entries| ==> entries[i].0 != entries[j].0
      invariant forall k :: k in m ==> k in keys || exists i :: 0 <= i < |entries| && entries[i].0 == k
      decreases |keys|
    {
      var k :| k in keys;
      ghost var before := entries;
      entries := entries + [(k, m[k])];
      keys := keys - {k};
      assert entries[|before|].0 == k;
      assert forall i :: 0 <= i < |before| ==> entries[i] == before[i];
    }
  }

  /**
   * The algorithmic part of the job: sentences and dictionary records are
   * split on ',', the dictionary is built and measured, every sentence is
   * matched, and the counts are laid out for writing.
   */
  method DoJob(rfqContent: string, dictContent: string, lineSeparator: string)
    returns (entries: seq<(string, nat)>, output: seq<string>)
    ensures IsEntryList(entries, Tally(Split(rfqContent, ','), Phrases(dictContent), MaxWordsLen(TrimmedRecords(dictContent))))
    ensures output == Lines(entries, lineSeparator)
  {
    var sentences := Split(rfqContent, ',');
    var phrases := Phrases(dictContent);
    var maxWordsLen := MaxWordsLen(TrimmedRecords(dictContent));
    var resultMap := CountPhrases(sentences, phrases, maxWordsLen);
    entries := EntriesOf(resultMap);
    output := Layout(entries, lineSeparator);
    LayoutIsLines(entries, lineSeparator);
  }
}
