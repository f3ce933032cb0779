/** The coded words of the RULER tasks and the common-words task built from them. */
module CommonWords {
  import opened Sequences
  import opened Strings

  // ----- Base 26 -----

  function Pow26(width: nat): (p: nat)
    ensures p > 0
  {
    if width == 0 then 1 else 26 * Pow26(width - 1)
  }

  function Letter(digit: nat): char
    requires digit < 26
  {
    ('a' as int + digit) as char
  }

  predicate IsLetter(ch: char) {
    'a' <= ch <= 'z'
  }

  /** `width` base-26 digits of `value`, the most significant first. */
  function Coded(value: nat, width: nat): (s: string)
    ensures |s| == width
    ensures forall ch | ch in s :: IsLetter(ch)
  {
    if width == 0 then "" else Coded(value / 26, width - 1) + [Letter(value % 26)]
  }

  function Decode(s: string): nat
    requires forall ch | ch in s :: IsLetter(ch)
  {
    if s == "" then 0
    else
      assert s[|s| - 1] in s && IsLetter(s[|s| - 1]);
      assert forall ch | ch in s[..|s| - 1] :: ch in s;
      26 * Decode(s[..|s| - 1]) + (s[|s| - 1] as int - 'a' as int)
  }

  function Reversed<T>(xs: seq<T>): seq<T> {
    if xs == [] then [] else Reversed(xs[1..]) + [xs[0]]
  }

  lemma {:induction false} ReversedAppend<T>(xs: seq<T>, ys: seq<T>)
    ensures Reversed(xs + ys) == Reversed(ys) + Reversed(xs)
  {
    if xs == [] {
      assert xs + ys == ys;
    } else {
      ReversedAppend(xs[1..], ys);
      assert (xs + ys)[1..] == xs[1..] + ys && (xs + ys)[0] == xs[0];
    }
  }

  lemma {:induction false} ReversedTwice<T>(xs: seq<T>)
    ensures Reversed(Reversed(xs)) == xs
  {
    if xs != [] {
      ReversedTwice(xs[1..]);
      ReversedAppend(Reversed(xs[1..]), [xs[0]]);
      assert Reversed([xs[0]]) == [xs[0]];
    }
  }

  /** `_base26`: the digits from the back, then reversed. */
  method Base26(value: nat, width: nat) returns (s: string)
    ensures s == Coded(value, width)
  {
    var chars := [];
    var rest := value;
    var i := 0;
    while i < width
      invariant 0 <= i <= width
      invariant Coded(value, width) == Coded(rest, width - i) + Reversed(chars)
    {
      chars := AppendDigit(rest, width - i, chars);
      rest := rest / 26;
      i := i + 1;
    }
    s := Reversed(chars);
  }

  method AppendDigit(rest: nat, left: nat, chars: string) returns (chars': string)
    requires left > 0
    ensures chars' == chars + [Letter(rest % 26)]
    ensures Coded(rest, left) + Reversed(chars) == Coded(rest / 26, left - 1) + Reversed(chars')
  {
    chars' := chars + [Letter(rest % 26)];
    ReversedAppend(chars, [Letter(rest % 26)]);
    assert Reversed([Letter(rest % 26)]) == [Letter(rest % 26)];
  }

  lemma {:induction false} ModuloStep(v: nat, p: nat)
    requires p > 0
    ensures 26 * (v / 26 % p) + v % 26 == v % (26 * p)
  {
    var q, m, d := v / 26 / p, v / 26 % p, v % 26;
    assert v == 26 * (q * p + m) + d;
    assert 26 * (q * p) == q * (26 * p);
    assert 0 <= 26 * m + d < 26 * p;
    UniqueRemainder(v, 26 * p, q, 26 * m + d);
  }

  lemma {:induction false} UniqueRemainder(v: nat, n: nat, q: int, r: nat)
    requires n > 0 && v == q * n + r && r < n
    ensures v % n == r
  {
    var k := v / n - q;
    assert k * n == r - v % n;
    assert k >= 1 ==> k * n >= n;
    assert k <= -1 ==> k * n <= -1 * n;
  }

  /** Decoding gives back the value modulo `26^width`. */
  lemma {:induction false} CodedDecodes(value: nat, width: nat)
    ensures Decode(Coded(value, width)) == value % Pow26(width)
  {
    if width > 0 {
      var front := Coded(value / 26, width - 1);
      CodedDecodes(value / 26, width - 1);
      assert Coded(value, width)[..width - 1] == front;
      ModuloStep(value, Pow26(width - 1));
    }
  }

  /** Every string of `width` letters is the code of exactly one value below `26^width`. */
  lemma {:induction false} DecodedCodes(s: string)
    requires forall ch | ch in s :: IsLetter(ch)
    ensures Decode(s) < Pow26(|s|) && Coded(Decode(s), |s|) == s
  {
    if s != "" {
      var front, last := s[..|s| - 1], s[|s| - 1];
      assert last in s && forall ch | ch in front :: ch in s;
      DecodedCodes(front);
      assert s == front + [last];
      var f, d := Decode(front), last as int - 'a' as int;
      assert (26 * f + d) / 26 == f && (26 * f + d) % 26 == d;
      assert Letter(d) == last;
    }
  }

  lemma {:induction false} CodedInjective(a: nat, b: nat, width: nat)
    requires a < Pow26(width) && b < Pow26(width) && Coded(a, width) == Coded(b, width)
    ensures a == b
  {
    CodedDecodes(a, width);
    CodedDecodes(b, width);
    UniqueRemainder(a, Pow26(width), 0, a);
    UniqueRemainder(b, Pow26(width), 0, b);
  }

  /** Codes repeat with period `26^width`. */
  lemma {:induction false} CodedPeriod(width: nat)
    ensures Coded(Pow26(width), width) == Coded(0, width)
  {
    CodedDecodes(Pow26(width), width);
    CodedDecodes(0, width);
    UniqueRemainder(Pow26(width), Pow26(width), 1, 0);
    UniqueRemainder(0, Pow26(width), 0, 0);
    DecodedCodes(Coded(Pow26(width), width));
    DecodedCodes(Coded(0, width));
  }

  // ----- The common-words task -----

  const WORD_COUNT := 456_976

  function Word(index: nat): string {
    "ruler-" + Coded(index, 4)
  }

  lemma {:induction false} WordsDiffer(a: nat, b: nat)
    requires a < WORD_COUNT && b < WORD_COUNT && a != b
    ensures Word(a) != Word(b)
  {
    PowerOfFour();
    if Word(a) == Word(b) {
      assert Word(a)[6..] == Coded(a, 4) && Word(b)[6..] == Coded(b, 4);
      CodedInjective(a, b, 4);
    }
  }

  /** Codes are ordered as their values, so the letters stand for the digits in order, the first
      for the most significant one. */
  lemma {:induction false} CodedInOrder(a: nat, b: nat, width: nat)
    requires a < b < Pow26(width)
    ensures Precedes(Coded(a, width), Coded(b, width))
    decreases width
  {
    HigherDigits(a, b, width);
    hide Precedes, Letter, Pow26;
    CodedUnfolds(a, width);
    CodedUnfolds(b, width);
    var x, y := Coded(a / 26, width - 1), Coded(b / 26, width - 1);
    hide Coded;
    if a / 26 < b / 26 {
      CodedInOrder(a / 26, b / 26, width - 1);
      PrecedesWith(x, y, Letter(a % 26), Letter(b % 26));
    } else {
      LastLetter(x, a % 26, b % 26);
    }
  }

  lemma {:induction false} HigherDigits(a: nat, b: nat, width: nat)
    requires a < b < Pow26(width)
    ensures width > 0 && a / 26 <= b / 26 < Pow26(width - 1)
    ensures a / 26 == b / 26 ==> a % 26 < b % 26
  {
  }

  lemma {:induction false} CodedUnfolds(value: nat, width: nat)
    requires width > 0
    ensures Coded(value, width) == Coded(value / 26, width - 1) + [Letter(value % 26)]
  {
  }

  lemma {:induction false} LastLetter(x: string, c: nat, d: nat)
    requires c < d < 26
    ensures Precedes(x + [Letter(c)], x + [Letter(d)])
  {
    var a, b := x + [Letter(c)], x + [Letter(d)];
    assert a[..|x|] == x == b[..|x|];
    assert DiffersAt(a, b, |x|);
  }

  lemma {:induction false} PrecedesWith(x: string, y: string, c: char, d: char)
    requires |x| == |y| && Precedes(x, y)
    ensures Precedes(x + [c], y + [d])
  {
    if x <= y {
      assert x == y;
    }
    var k: nat :| DiffersAt(x, y, k) && x[k] < y[k];
    assert (x + [c])[..k] == x[..k] && (y + [d])[..k] == y[..k];
    assert DiffersAt(x + [c], y + [d], k);
  }

  /** What `resolve_task_config` lets through for the task. */
  datatype CweConfig = CweConfig(freqCw: int, freqUcw: int, numCw: int)

  predicate Resolved(c: CweConfig) {
    c.freqCw > 0 && c.freqUcw > 0 && c.numCw > 0 && c.freqCw > c.freqUcw
  }

  function DistinctCount(c: CweConfig, count: nat): nat
    requires Resolved(c)
  {
    if count > c.numCw + 1 then count else c.numCw + 1
  }

  /** `rng.randrange(max(1, 26**4 - distinct_count))` draws such an offset. */
  predicate DrawnOffset(distinct: nat, offset: nat) {
    offset < if WORD_COUNT - distinct > 1 then WORD_COUNT - distinct else 1
  }

  function Vocabulary(offset: nat, distinct: nat): (v: seq<string>)
    ensures |v| == distinct
  {
    seq(distinct, i requires 0 <= i < distinct => Word(offset + i))
  }

  /** `xs * k` */
  function Repeat<T>(xs: seq<T>, k: nat): seq<T> {
    if k == 0 then [] else Repeat(xs, k - 1) + xs
  }

  function CommonOf(c: CweConfig, offset: nat, distinct: nat): seq<string>
    requires Resolved(c) && c.numCw < distinct
  {
    Vocabulary(offset, distinct)[..c.numCw]
  }

  /** The words of the prompt before they are shuffled. */
  function PromptWords(c: CweConfig, offset: nat, distinct: nat): seq<string>
    requires Resolved(c) && c.numCw < distinct
  {
    Repeat(Vocabulary(offset, distinct)[..c.numCw], c.freqCw) +
    Repeat(Vocabulary(offset, distinct)[c.numCw..], c.freqUcw)
  }

  /** The stored answer is the true one: `answer` lists without repetition exactly the
      `numCw` words that occur `freqCw` times, and every other word occurs `freqUcw`
      times or not at all. */
  ghost predicate AnswerIsTrue(c: CweConfig, words: seq<string>, answer: seq<string>) {
    && |answer| == c.numCw
    && NoDuplicates(answer)
    && (forall w | w in answer :: multiset(words)[w] == c.freqCw)
    && (forall w | w in words && w !in answer :: multiset(words)[w] == c.freqUcw)
  }

  lemma {:induction false} OneMore(k: nat, m: nat)
    requires k > 0
    ensures (k - 1) * m + m == k * m
  {
  }

  lemma {:induction false} RepeatCount<T>(xs: seq<T>, k: nat, x: T)
    ensures multiset(Repeat(xs, k))[x] == k * multiset(xs)[x]
  {
    if k > 0 {
      RepeatCount(xs, k - 1, x);
      OneMore(k, multiset(xs)[x]);
      assert multiset(Repeat(xs, k - 1) + xs)[x] == multiset(Repeat(xs, k - 1))[x] + multiset(xs)[x];
    }
  }

  lemma {:induction false} PromptCount(c: CweConfig, offset: nat, distinct: nat, words: seq<string>, w: string)
    requires Resolved(c) && c.numCw < distinct
    requires multiset(words) == multiset(PromptWords(c, offset, distinct))
    ensures var v := Vocabulary(offset, distinct);
            multiset(words)[w] == c.freqCw * multiset(v[..c.numCw])[w] + c.freqUcw * multiset(v[c.numCw..])[w]
  {
    var v := Vocabulary(offset, distinct);
    RepeatCount(v[..c.numCw], c.freqCw, w);
    RepeatCount(v[c.numCw..], c.freqUcw, w);
  }

  lemma {:induction false} VocabularyDistinct(offset: nat, distinct: nat)
    requires distinct <= WORD_COUNT && DrawnOffset(distinct, offset)
    ensures NoDuplicates(Vocabulary(offset, distinct))
  {
    var v := Vocabulary(offset, distinct);
    forall i, j | 0 <= i < j < distinct ensures v[i] != v[j] {
      WordsDiffer(offset + i, offset + j);
    }
  }

  lemma {:induction false} AnswerTrueWhenDistinct(c: CweConfig, offset: nat, distinct: nat, words: seq<string>)
    requires Resolved(c) && c.numCw < distinct <= WORD_COUNT && DrawnOffset(distinct, offset)
    requires multiset(words) == multiset(PromptWords(c, offset, distinct))
    ensures AnswerIsTrue(c, words, CommonOf(c, offset, distinct))
  {
    var v := Vocabulary(offset, distinct);
    VocabularyDistinct(offset, distinct);
    forall w
      ensures w in v[..c.numCw] ==> multiset(words)[w] == c.freqCw
      ensures w !in v[..c.numCw] && w in words ==> multiset(words)[w] == c.freqUcw
    {
      PromptCount(c, offset, distinct, words, w);
      OnceInDistinct(v[..c.numCw], w);
      OnceInDistinct(v[c.numCw..], w);
      if w in v[..c.numCw] {
        assert w !in v[c.numCw..];
      }
      assert w in words <==> multiset(words)[w] > 0;
    }
  }

  /** One occurrence too many, wherever it is. */
  lemma {:induction false} OvercountedWord(c: CweConfig, a: nat, b: nat)
    requires Resolved(c) && a > 0 && (a > 1 || b > 0)
    ensures c.freqCw * a + c.freqUcw * b > c.freqCw
  {
    assert c.freqCw * a >= c.freqCw && c.freqUcw * b >= 0;
    if a > 1 {
      assert c.freqCw * a >= c.freqCw * 2;
    } else {
      assert c.freqUcw * b >= c.freqUcw;
    }
  }

  lemma {:induction false} RepeatedAcross<T>(v: seq<T>, k: nat, j: nat)
    requires 0 < k < |v| && 0 < j < |v| && v[j] == v[0]
    ensures var a, b := multiset(v[..k])[v[0]], multiset(v[k..])[v[0]]; a > 0 && (a > 1 || b > 0)
  {
    assert v[..k][0] == v[0];
    if j < k {
      TwiceIn(v[..k], 0, j);
    } else {
      assert v[k..][j - k] == v[0];
    }
  }

  lemma {:induction false} WrappedWord(distinct: nat)
    requires distinct > WORD_COUNT
    ensures Vocabulary(0, distinct)[WORD_COUNT] == Vocabulary(0, distinct)[0] == Word(0)
  {
    PowerOfFour();
    CodedPeriod(4);
    hide Coded, Pow26;
    assert Word(WORD_COUNT) == Word(0);
    VocabularyAt(0, distinct, WORD_COUNT);
    VocabularyAt(0, distinct, 0);
  }

  lemma {:induction false} PowerOfFour()
    ensures Pow26(4) == WORD_COUNT
  {
    assert Pow26(1) == 26;
    assert Pow26(2) == 676;
    assert Pow26(3) == 17_576;
  }

  lemma {:induction false} VocabularyAt(offset: nat, distinct: nat, i: nat)
    requires i < distinct
    ensures Vocabulary(offset, distinct)[i] == Word(offset + i)
  {
    hide Word;
  }

  lemma {:induction false} AnswerFalseWhenWrapped(c: CweConfig, offset: nat, distinct: nat, words: seq<string>)
    requires Resolved(c) && c.numCw < distinct && WORD_COUNT < distinct && DrawnOffset(distinct, offset)
    requires multiset(words) == multiset(PromptWords(c, offset, distinct))
    ensures multiset(words)[Word(0)] > c.freqCw && Word(0) in CommonOf(c, offset, distinct)
  {
    hide Word, PromptWords;
    var v := Vocabulary(offset, distinct);
    WrappedWord(distinct);
    RepeatedAcross(v, c.numCw, WORD_COUNT);
    PromptCount(c, offset, distinct, words, v[0]);
    OvercountedWord(c, multiset(v[..c.numCw])[v[0]], multiset(v[c.numCw..])[v[0]]);
    assert v[..c.numCw][0] == v[0];
  }

  /** For every draw of the offset and every shuffle, the stored answer is the true
      one exactly as long as the words do not run out. */
  lemma {:induction false} AnswerTrueIffEnoughWords(c: CweConfig, count: nat, offset: nat, words: seq<string>)
    requires Resolved(c) && DrawnOffset(DistinctCount(c, count), offset)
    requires multiset(words) == multiset(PromptWords(c, offset, DistinctCount(c, count)))
    ensures AnswerIsTrue(c, words, CommonOf(c, offset, DistinctCount(c, count)))
            <==> DistinctCount(c, count) <= WORD_COUNT
    ensures DistinctCount(c, count) <= WORD_COUNT <==> count <= 456_976 && c.numCw < 456_976
  {
    if DistinctCount(c, count) <= WORD_COUNT {
      AnswerTrueWhenDistinct(c, offset, DistinctCount(c, count), words);
    } else {
      AnswerFalseWhenWrapped(c, offset, DistinctCount(c, count), words);
    }
  }

  /** An offset can be drawn exactly if all words fit behind it with one to spare, or if it is
      the first. */
  lemma {:induction false} DrawnIff(distinct: nat, offset: nat)
    ensures DrawnOffset(distinct, offset) <==> offset + distinct < 456_976 || offset == 0
  {
  }

  /** While the words do not run out, the prompt has as many different ones as asked for, or
      one more than the answer lists if that is more. */
  lemma {:induction false} PromptHasCount(c: CweConfig, count: nat, offset: nat, words: seq<string>)
    requires Resolved(c) && DrawnOffset(DistinctCount(c, count), offset) && DistinctCount(c, count) <= WORD_COUNT
    requires multiset(words) == multiset(PromptWords(c, offset, DistinctCount(c, count)))
    ensures var different := |set w | w in words|;
            && different >= count && different > c.numCw && (different == count || different == c.numCw + 1)
  {
    var distinct := DistinctCount(c, count);
    var v := Vocabulary(offset, distinct);
    VocabularyDistinct(offset, distinct);
    forall w ensures w in words <==> w in v {
      hide Vocabulary;
      PromptCount(c, offset, distinct, words, w);
      assert v == v[..c.numCw] + v[c.numCw..];
      assert w in words <==> multiset(words)[w] > 0;
      Positives(c, multiset(v[..c.numCw])[w], multiset(v[c.numCw..])[w]);
    }
    assert (set w | w in words) == set w | w in v;
    SetOfDistinct(v);
  }

  lemma {:induction false} Positives(c: CweConfig, a: nat, b: nat)
    requires Resolved(c)
    ensures c.freqCw * a + c.freqUcw * b > 0 <==> a > 0 || b > 0
  {
    assert a > 0 ==> c.freqCw * a >= a;
    assert b > 0 ==> c.freqUcw * b >= b;
    assert c.freqCw * a >= 0 && c.freqUcw * b >= 0;
  }

  lemma {:induction false} SetOfDistinct<T>(xs: seq<T>)
    requires NoDuplicates(xs)
    ensures |set x | x in xs| == |xs|
  {
    if xs != [] {
      var n := |xs| - 1;
      SetOfDistinct(xs[..n]);
      assert xs == xs[..n] + [xs[n]];
      assert (set x | x in xs) == (set x | x in xs[..n]) + {xs[n]};
    }
  }

  /** The words of a true answer are strictly more frequent than all other words. */
  lemma {:induction false} TrueAnswerIsMostFrequent(c: CweConfig, words: seq<string>, answer: seq<string>, w: string, other: string)
    requires Resolved(c) && AnswerIsTrue(c, words, answer) && w in answer && other !in answer
    ensures multiset(words)[other] < multiset(words)[w]
  {
    assert other in words <==> multiset(words)[other] > 0;
  }
}
