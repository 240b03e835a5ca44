/** Splitting text into words, and looking words up through a bounded least-recently-used cache. */
module Spelling {

  /** General category of a character, as far as words go. */
  datatype Category = Letter | Mark | Other

  /** A normalised text with the categories of its characters. */
  predicate IsLetter(text: string, category: char -> Category, i: nat) {
    i < |text| && category(text[i]).Letter?
  }

  /** Whether the character at `i` goes on with a word that has begun. */
  predicate Continues(text: string, category: char -> Category, i: nat) {
    i < |text| && (category(text[i]).Letter? || category(text[i]).Mark?
                   || (text[i] == '\'' && IsLetter(text, category, i + 1)))
  }

  /** A word as a half-open range of the text. */
  datatype Span = Span(from: nat, to: nat)

  /** Where the search for word `k` starts: after the word before it. */
  function After(spans: seq<Span>, k: nat): nat
    requires k <= |spans|
  {
    if k == 0 then 0 else spans[k - 1].to
  }

  ghost predicate NoLetters(text: string, category: char -> Category, from: nat, to: nat) {
    forall i :: from <= i < to ==> !IsLetter(text, category, i)
  }

  ghost predicate GoesOn(text: string, category: char -> Category, from: nat, to: nat) {
    forall i :: from <= i < to ==> Continues(text, category, i)
  }

  /** Word `k` starts at the first letter after the word before it and goes on as long as it can. */
  ghost predicate WordAt(text: string, category: char -> Category, spans: seq<Span>, k: nat)
    requires k < |spans|
  {
    var s := spans[k];
    && After(spans, k) <= s.from < s.to <= |text|
    && NoLetters(text, category, After(spans, k), s.from) && IsLetter(text, category, s.from)
    && GoesOn(text, category, s.from + 1, s.to) && (s.to < |text| ==> !Continues(text, category, s.to))
  }

  /** The words up to position `n`. */
  ghost predicate Words(text: string, category: char -> Category, spans: seq<Span>, n: nat) {
    && n <= |text|
    && (forall k: nat :: k < |spans| ==> WordAt(text, category, spans, k))
    && NoLetters(text, category, After(spans, |spans|), n)
    && (spans != [] ==> spans[|spans| - 1].to == |text| == n || spans[|spans| - 1].to < n)
  }

  function Slices(text: string, spans: seq<Span>): (r: seq<string>)
    requires forall s <- spans :: s.from <= s.to <= |text|
    ensures |r| == |spans|
  {
    seq(|spans|, k requires 0 <= k < |spans| => text[spans[k].from..spans[k].to])
  }

  lemma SameWord(text: string, category: char -> Category, a: seq<Span>, b: seq<Span>, k: nat)
    requires k < |a| && k < |b| && After(a, k) == After(b, k)
    requires WordAt(text, category, a, k) && WordAt(text, category, b, k)
    ensures a[k] == b[k]
  {
    hide Continues, IsLetter;
    var x, y := a[k], b[k];
    assert x.from == y.from;
    assert x.to == y.to;
  }

  /** The words are determined: there is one way to cut the text. */
  lemma {:induction false} WordsUnique(text: string, category: char -> Category, a: seq<Span>, b: seq<Span>, k: nat)
    requires Words(text, category, a, |text|) && Words(text, category, b, |text|) && k <= |a| && k <= |b|
    ensures a[..k] == b[..k]
  {
    if k > 0 {
      WordsUnique(text, category, a, b, k - 1);
      assert k > 1 ==> a[k - 2] == a[..k - 1][k - 2] && b[k - 2] == b[..k - 1][k - 2];
      assert WordAt(text, category, a, k - 1) && WordAt(text, category, b, k - 1);
      hide WordAt, Words;
      SameWord(text, category, a, b, k - 1);
      assert a[..k] == a[..k - 1] + [a[k - 1]] && b[..k] == b[..k - 1] + [b[k - 1]];
    }
  }

  lemma NoLettersAfter(text: string, category: char -> Category, spans: seq<Span>, p: nat)
    requires Words(text, category, spans, |text|) && After(spans, |spans|) <= p < |text|
    ensures !IsLetter(text, category, p)
  {
    hide WordAt;
  }

  lemma LastOfPrefix(a: seq<Span>, b: seq<Span>)
    requires |b| <= |a| && a[..|b|] == b[..|b|]
    ensures b != [] ==> a[|b| - 1] == b[|b| - 1]
  {
    if b != [] { assert a[..|b|][|b| - 1] == b[..|b|][|b| - 1]; }
  }

  lemma SameNumberOfWords(text: string, category: char -> Category, a: seq<Span>, b: seq<Span>)
    requires Words(text, category, a, |text|) && Words(text, category, b, |text|)
    ensures |a| <= |b|
  {
    if |a| > |b| {
      WordsUnique(text, category, a, b, |b|);
      LastOfPrefix(a, b);
      assert WordAt(text, category, a, |b|);
      NoLettersAfter(text, category, b, a[|b|].from);
    }
  }

  lemma WordsDetermined(text: string, category: char -> Category, a: seq<Span>, b: seq<Span>)
    requires Words(text, category, a, |text|) && Words(text, category, b, |text|)
    ensures a == b
  {
    SameNumberOfWords(text, category, a, b);
    SameNumberOfWords(text, category, b, a);
    WordsUnique(text, category, a, b, |a|);
  }

  /** The letters of a text, in order. */
  function Letters(text: string, category: char -> Category): string {
    if |text| == 0 then ""
    else Letters(text[..|text| - 1], category) + (if category(text[|text| - 1]).Letter? then [text[|text| - 1]] else "")
  }

  function Flatten(words: seq<string>): string {
    if |words| == 0 then "" else Flatten(words[..|words| - 1]) + words[|words| - 1]
  }

  lemma LettersStep(text: string, category: char -> Category, i: nat)
    requires i < |text|
    ensures Letters(text[..i + 1], category) == Letters(text[..i], category)
            + (if category(text[i]).Letter? then [text[i]] else "")
  {
    assert text[..i + 1][..i] == text[..i];
  }

  lemma LettersAppend(word: string, c: char, category: char -> Category)
    ensures Letters(word + [c], category) == Letters(word, category) + (if category(c).Letter? then [c] else "")
  {
    assert (word + [c])[..|word|] == word;
  }

  /** Where the loop stands at `i`: the words cut so far, and one under way since `start` unless `word` is empty. */
  ghost predicate Scanned(text: string, category: char -> Category, spans: seq<Span>, tokens: seq<string>, word: string,
                          start: nat, i: nat) {
    && start <= i <= |text| && Words(text, category, spans, start)
    && (forall s <- spans :: s.from <= s.to <= |text|) && tokens == Slices(text, spans)
    && word == text[start..i]
    && (word != "" ==>
          IsLetter(text, category, start) && GoesOn(text, category, start + 1, i)
            && (spans != [] ==> spans[|spans| - 1].to < start))
  }

  lemma ScanAdd(text: string, category: char -> Category, spans: seq<Span>, tokens: seq<string>, word: string,
                start: nat, i: nat)
    requires Scanned(text, category, spans, tokens, word, start, i) && i < |text|
    requires if word == "" then IsLetter(text, category, i) else Continues(text, category, i)
    ensures Scanned(text, category, spans, tokens, word + [text[i]], start, i + 1)
  {
    hide Slices;
    assert text[start..i + 1] == text[start..i] + [text[i]];
  }

  /** A character that is no letter can be passed over between words. */
  lemma WordsPass(text: string, category: char -> Category, spans: seq<Span>, n: nat)
    requires Words(text, category, spans, n) && n < |text| && !IsLetter(text, category, n)
    ensures Words(text, category, spans, n + 1)
  {
    hide WordAt;
  }

  lemma WordStays(text: string, category: char -> Category, spans: seq<Span>, s: Span, k: nat)
    requires k < |spans| && WordAt(text, category, spans, k)
    ensures WordAt(text, category, spans + [s], k)
  {
    assert After(spans + [s], k) == After(spans, k);
    hide NoLetters, GoesOn, Continues, IsLetter;
  }

  /** A finished word joins the words. */
  lemma WordsJoin(text: string, category: char -> Category, spans: seq<Span>, start: nat, n: nat, next: nat)
    requires Words(text, category, spans, start) && start < n <= |text| && IsLetter(text, category, start)
    requires GoesOn(text, category, start + 1, n)
    requires if n < |text| then next == n + 1 && !Continues(text, category, n) else next == n
    ensures Words(text, category, spans + [Span(start, n)], next)
  {
    var all := spans + [Span(start, n)];
    assert n < |text| ==> !IsLetter(text, category, n);
    assert NoLetters(text, category, n, next);
    assert After(all, |spans|) == After(spans, |spans|) && After(all, |all|) == n;
    hide Continues, IsLetter, NoLetters, GoesOn;
    forall k: nat | k < |all|
      ensures WordAt(text, category, all, k)
    {
      if k < |spans| { WordStays(text, category, spans, Span(start, n), k); }
    }
  }

  lemma ScanEnd(text: string, category: char -> Category, spans: seq<Span>, tokens: seq<string>, word: string,
                start: nat, i: nat)
    requires Scanned(text, category, spans, tokens, word, start, i) && word != ""
             && (i < |text| ==> !Continues(text, category, i))
    ensures var next := if i < |text| then i + 1 else i;
            Scanned(text, category, spans + [Span(start, i)], tokens + [word], "", next, next)
  {
    assert Slices(text, spans + [Span(start, i)]) == Slices(text, spans) + [word];
    hide Words, Continues, IsLetter, Slices;
    WordsJoin(text, category, spans, start, i, if i < |text| then i + 1 else i);
  }

  lemma ScanSkip(text: string, category: char -> Category, spans: seq<Span>, tokens: seq<string>, start: nat, i: nat)
    requires Scanned(text, category, spans, tokens, "", start, i) && i < |text| && !IsLetter(text, category, i)
    ensures Scanned(text, category, spans, tokens, "", i + 1, i + 1)
  {
    hide Slices, Words;
    assert |text[start..i]| == 0;
    assert start == i;
    WordsPass(text, category, spans, i);
    assert text[i + 1..i + 1] == "";
  }

  /** The letters up to `i` are those of the tokens and of the word under way. */
  ghost predicate LettersOut(text: string, category: char -> Category, tokens: seq<string>, word: string, i: nat)
    requires i <= |text|
  {
    Letters(Flatten(tokens) + word, category) == Letters(text[..i], category)
  }

  lemma LettersAdd(text: string, category: char -> Category, tokens: seq<string>, word: string, i: nat)
    requires i < |text| && LettersOut(text, category, tokens, word, i)
    ensures LettersOut(text, category, tokens, word + [text[i]], i + 1)
    ensures !category(text[i]).Letter? ==> LettersOut(text, category, tokens, word, i + 1)
  {
    LettersStep(text, category, i);
    LettersAppend(Flatten(tokens) + word, text[i], category);
    assert Flatten(tokens) + word + [text[i]] == Flatten(tokens) + (word + [text[i]]);
  }

  lemma LettersEnd(text: string, category: char -> Category, tokens: seq<string>, word: string, i: nat)
    requires i <= |text| && LettersOut(text, category, tokens, word, i)
    ensures LettersOut(text, category, tokens + [word], "", i)
  {
    assert (tokens + [word])[..|tokens|] == tokens;
    assert Flatten(tokens + [word]) + "" == Flatten(tokens) + word;
  }

  /**
   The tokenizer loop: every letter of the text comes out exactly once and in order, in maximal words that start with
   one.
   */
  method Tokenize(text: string, category: char -> Category) returns (tokens: seq<string>, ghost spans: seq<Span>)
    ensures Words(text, category, spans, |text|)
    ensures (forall s <- spans :: s.from <= s.to <= |text|) && tokens == Slices(text, spans)
    ensures Letters(Flatten(tokens), category) == Letters(text, category)
  {
    tokens, spans := [], [];
    var word := "";
    ghost var start := 0;
    assert Flatten([]) + "" == "" && text[..0] == "";
    for i := 0 to |text|
      invariant Scanned(text, category, spans, tokens, word, start, i)
      invariant LettersOut(text, category, tokens, word, i)
    {
      var c := text[i];
      var apostrophe := c == '\'' && word != "" && IsLetter(text, category, i + 1);
      LettersAdd(text, category, tokens, word, i);
      if category(c).Letter? || (category(c).Mark? && word != "") || apostrophe {
        ScanAdd(text, category, spans, tokens, word, start, i);
        word := word + [c];
      } else if word != "" {
        ScanEnd(text, category, spans, tokens, word, start, i);
        LettersEnd(text, category, tokens, word, i + 1);
        spans := spans + [Span(start, i)];
        tokens := tokens + [word];
        word := "";
        start := i + 1;
      } else {
        ScanSkip(text, category, spans, tokens, start, i);
        start := i + 1;
      }
      hide Scanned, LettersOut;
    }
    assert text[..|text|] == text;
    if word != "" {
      ScanEnd(text, category, spans, tokens, word, start, |text|);
      LettersEnd(text, category, tokens, word, |text|);
      spans := spans + [Span(start, |text|)];
      tokens := tokens + [word];
      start := |text|;
    }
    assert Flatten(tokens) + "" == Flatten(tokens);
    assert start == |text|;
  }
}

/** Dictionary lookup through a cache of the most recently used words. */
module SpellingCache {
  import opened Wrappers

  const CAPACITY := 4096

  datatype Verdict = Passed | Failed | Missing | NotApplicable
  datatype Entry = Entry(token: string, known: bool)

  /** The dictionaries, the accepted terms, and how a value is blank and is split: all fixed. */
  datatype Language = Language(lookup: string -> bool, accepted: set<string>, blank: string -> bool,
                               tokens: string -> seq<string>)

  predicate AllKnown(l: Language, tokens: seq<string>) {
    forall t <- tokens :: t in l.accepted || l.lookup(t)
  }

  /** The answer without any cache. */
  function Uncached(l: Language, value: Option<string>): Verdict {
    if value.None? || l.blank(value.value) then Missing
    else if l.tokens(value.value) == [] then NotApplicable
    else if AllKnown(l, l.tokens(value.value)) then Passed else Failed
  }

  /** What an answer says: no value, nothing but blanks, no words, or whether every word is accepted or known. */
  ghost predicate Means(l: Language, value: Option<string>, r: Verdict) {
    if value == None || l.blank(value.value) then r == Missing
    else if |l.tokens(value.value)| == 0 then r == NotApplicable
    else if exists t <- l.tokens(value.value) :: t !in l.accepted && !l.lookup(t) then r == Failed
    else r == Passed
  }

  lemma UncachedMeans(l: Language, value: Option<string>)
    ensures Means(l, value, Uncached(l, value))
  {
  }

  // ---- recency ---------------------------------------------------------------------------------

  function Without<T(==,!new)>(s: seq<T>, t: T): (r: seq<T>)
    ensures t !in r && (forall x :: x in r <==> x in s && x != t)
  {
    if |s| == 0 then [] else Without(s[..|s| - 1], t) + (if s[|s| - 1] == t then [] else [s[|s| - 1]])
  }

  /** The distinct tokens of a history, least recently used first. */
  function Recency<T(==,!new)>(history: seq<T>): (r: seq<T>)
    ensures forall x :: x in r <==> x in history
  {
    if |history| == 0 then []
       else Without(Recency(history[..|history| - 1]), history[|history| - 1]) + [history[|history| - 1]]
  }

  function LastOf<T(==,!new)>(s: seq<T>, n: nat): seq<T> {
    if |s| <= n then s else s[|s| - n..]
  }

  ghost predicate Distinct<T>(s: seq<T>) {
    forall i, j :: 0 <= i < j < |s| ==> s[i] != s[j]
  }

  lemma {:induction false} WithoutAbsent<T(!new)>(s: seq<T>, t: T)
    requires t !in s
    ensures Without(s, t) == s
  {
    if |s| > 0 {
      assert s == s[..|s| - 1] + [s[|s| - 1]];
      WithoutAbsent(s[..|s| - 1], t);
    }
  }

  lemma {:induction false} WithoutAt<T(!new)>(s: seq<T>, i: nat)
    requires Distinct(s) && i < |s|
    ensures Without(s, s[i]) == s[..i] + s[i + 1..]
  {
    var n := |s| - 1;
    var front := s[..n];
    if i == n {
      assert s[n] !in front;
      WithoutAbsent(front, s[n]);
      assert s[n + 1..] == [];
    } else {
      WithoutAt(front, i);
      assert front[..i] == s[..i] && s[i + 1..] == front[i + 1..] + [s[n]];
    }
  }

  lemma {:induction false} RecencyDistinct<T(!new)>(history: seq<T>)
    ensures Distinct(Recency(history))
  {
    if |history| > 0 {
      var t := history[|history| - 1];
      RecencyDistinct(history[..|history| - 1]);
      WithoutDistinct(Recency(history[..|history| - 1]), t);
    }
  }

  lemma {:induction false} WithoutDistinct<T(!new)>(s: seq<T>, t: T)
    requires Distinct(s)
    ensures Distinct(Without(s, t))
  {
    if t in s {
      var i :| 0 <= i < |s| && s[i] == t;
      WithoutAt(s, i);
    } else {
      WithoutAbsent(s, t);
    }
  }

  /** `t` was used at `i` and not since. */
  ghost predicate LastUsed<T>(history: seq<T>, t: T, i: nat) {
    i < |history| && history[i] == t && forall k :: i < k < |history| ==> history[k] != t
  }

  lemma {:induction false} WithoutKeepsOrder<T(!new)>(s: seq<T>, t: T, i: nat, j: nat)
    requires Distinct(s) && i < j < |Without(s, t)|
    ensures exists x, y :: 0 <= x < y < |s| && s[x] == Without(s, t)[i] && s[y] == Without(s, t)[j]
  {
    if t in s {
      var n :| 0 <= n < |s| && s[n] == t;
      WithoutAt(s, n);
      var x, y := if i < n then i else i + 1, if j < n then j else j + 1;
      assert x < y && s[x] == Without(s, t)[i] && s[y] == Without(s, t)[j];
    } else {
      WithoutAbsent(s, t);
    }
  }

  lemma UsedEarlier<T>(front: seq<T>, last: T, t: T, x: nat)
    requires LastUsed(front + [last], t, x)
    ensures if t == last then x == |front| else LastUsed(front, t, x)
  {
    var all := front + [last];
    assert all[|front|] == last;
    forall k | x < k < |front|
      ensures front[k] != t
    {
      assert all[k] == front[k];
    }
  }

  /** The tokens of a history in order of recency are in the order of their last uses. */
  lemma {:induction false} RecencyByLastUse<T(!new)>(history: seq<T>, i: nat, j: nat, x: nat, y: nat)
    requires i < j < |Recency(history)|
    requires LastUsed(history, Recency(history)[i], x) && LastUsed(history, Recency(history)[j], y)
    ensures x < y
  {
    hide Without, Distinct, LastUsed;
    var front, t := history[..|history| - 1], history[|history| - 1];
    var kept := Without(Recency(front), t);
    assert history == front + [t];
    RecencyNext(front, t);
    RecencyDistinct(front);
    UsedEarlier(front, t, Recency(history)[i], x);
    UsedEarlier(front, t, Recency(history)[j], y);
    assert kept[i] in kept;
    if j == |kept| {
      UsedWithin(front, kept[i], x);
    } else {
      assert kept[j] in kept;
      hide Recency;
      WithoutKeepsOrder(Recency(front), t, i, j);
      var a, b :| 0 <= a < b < |Recency(front)| && Recency(front)[a] == kept[i] && Recency(front)[b] == kept[j];
      RecencyByLastUse(front, a, b, x, y);
    }
  }

  lemma UsedWithin<T>(history: seq<T>, t: T, x: nat)
    requires LastUsed(history, t, x)
    ensures x < |history|
  {
  }

  lemma RecencyNext<T(!new)>(history: seq<T>, t: T)
    ensures Recency(history + [t]) == Without(Recency(history), t) + [t]
  {
    assert (history + [t])[..|history|] == history;
  }

  lemma LastOfSuffix<T(!new)>(before: seq<T>, x: seq<T>, n: nat)
    requires |x| == n || (before == [] && |x| <= n)
    ensures LastOf(before + x, n) == x
  {
  }

  /** A history's tokens are what has been pushed out and then the cached ones. */
  lemma SplitLast<T(!new)>(all: seq<T>, n: nat) returns (before: seq<T>)
    ensures all == before + LastOf(all, n)
    ensures |LastOf(all, n)| == n || (before == [] && |LastOf(all, n)| < n)
  {
    before := if |all| < n then [] else all[..|all| - n];
  }

  lemma WithoutInMiddle<T(!new)>(before: seq<T>, keys: seq<T>, i: nat)
    requires Distinct(before + keys) && i < |keys|
    ensures Without(before + keys, keys[i]) == before + (keys[..i] + keys[i + 1..])
  {
    WithoutAt(before + keys, |before| + i);
    assert (before + keys)[..|before| + i] == before + keys[..i];
    assert (before + keys)[|before| + i + 1..] == keys[i + 1..];
  }

  lemma WithoutBefore<T(!new)>(before: seq<T>, keys: seq<T>, t: T) returns (rest: seq<T>)
    requires Distinct(before + keys) && t !in keys
    ensures Without(before + keys, t) == rest + keys && (before == [] ==> rest == [])
  {
    hide Distinct, Without;
    if t in before {
      var i :| 0 <= i < |before| && before[i] == t;
      assert (before + keys)[i] == t;
      WithoutAt(before + keys, i);
      rest := before[..i] + before[i + 1..];
      assert (before + keys)[..i] + (before + keys)[i + 1..] == rest + keys;
    } else {
      WithoutAbsent(before + keys, t);
      rest := before;
    }
  }

  /** Using a token again moves it to the end of the last `n`. */
  lemma UseAgain<T(!new)>(all: seq<T>, n: nat, i: nat)
    requires Distinct(all) && i < |LastOf(all, n)|
    ensures var keys := LastOf(all, n);
            LastOf(Without(all, keys[i]) + [keys[i]], n) == keys[..i] + keys[i + 1..] + [keys[i]]
  {
    var keys := LastOf(all, n);
    var before := SplitLast(all, n);
    hide *;
    WithoutInMiddle(before, keys, i);
    var kept := keys[..i] + keys[i + 1..];
    assert before + kept + [keys[i]] == before + (kept + [keys[i]]);
    LastOfSuffix(before, kept + [keys[i]], n);
  }

  /** A token not among the last `n` pushes out the least recently used of them once they are all there. */
  lemma UseNew<T(!new)>(all: seq<T>, n: nat, t: T)
    requires n > 0 && Distinct(all) && t !in LastOf(all, n)
    ensures var keys := LastOf(all, n);
            LastOf(Without(all, t) + [t], n) == (if |keys| >= n then keys[1..] else keys) + [t]
  {
    var keys := LastOf(all, n);
    var before := SplitLast(all, n);
    hide *;
    var rest := WithoutBefore(before, keys, t);
    if |keys| == n {
      assert rest + keys + [t] == (rest + [keys[0]]) + (keys[1..] + [t]);
      LastOfSuffix(rest + [keys[0]], keys[1..] + [t], n);
    } else {
      assert rest + keys + [t] == rest + (keys + [t]);
      LastOfSuffix(rest, keys + [t], n);
    }
  }

  function Tokens(cache: seq<Entry>): (r: seq<string>)
    ensures |r| == |cache|
    ensures forall i :: 0 <= i < |r| ==> r[i] == cache[i].token
  {
    seq(|cache|, i requires 0 <= i < |cache| => cache[i].token)
  }

  /** The cache holds the most recently used tokens, in order of use, each with its dictionary answer. */
  ghost predicate Caches(cache: seq<Entry>, history: seq<string>, l: Language) {
    Tokens(cache) == LastOf(Recency(history), CAPACITY) && forall e <- cache :: e.known == l.lookup(e.token)
  }

  lemma TokensMoved(cache: seq<Entry>, i: nat)
    requires i < |cache|
    ensures Tokens(cache[..i] + cache[i + 1..] + [cache[i]]) ==
              Tokens(cache)[..i] + Tokens(cache)[i + 1..] + [Tokens(cache)[i]]
  {
  }

  lemma TokensPushed(cache: seq<Entry>, e: Entry)
    ensures Tokens(cache + [e]) == Tokens(cache) + [e.token]
    ensures |cache| > 0 ==> Tokens(cache[1..]) == Tokens(cache)[1..]
  {
  }

  lemma HitKeeps(cache: seq<Entry>, history: seq<string>, l: Language, i: nat)
    requires Caches(cache, history, l) && i < |cache|
    ensures Caches(cache[..i] + cache[i + 1..] + [cache[i]], history + [cache[i].token], l)
  {
    assert cache[i] in cache;
    hide Recency, LastOf, Distinct, Without;
    RecencyDistinct(history);
    RecencyNext(history, cache[i].token);
    UseAgain(Recency(history), CAPACITY, i);
    TokensMoved(cache, i);
  }

  lemma MissKeeps(cache: seq<Entry>, history: seq<string>, l: Language, t: string)
    requires Caches(cache, history, l) && t !in Tokens(cache)
    ensures Caches((if |cache| >= CAPACITY then cache[1..] else cache) + [Entry(t, l.lookup(t))], history + [t], l)
  {
    hide Recency, LastOf, Distinct, Without;
    RecencyDistinct(history);
    RecencyNext(history, t);
    UseNew(Recency(history), CAPACITY, t);
    TokensPushed(cache, Entry(t, l.lookup(t)));
    TokensPushed(if |cache| >= CAPACITY then cache[1..] else cache, Entry(t, l.lookup(t)));
  }

  /** `history` remembers, for the proof only, every token looked up in the cache. */
  class SpellingEvaluator {
    const language: Language
    var cache: seq<Entry>
    ghost var history: seq<string>

    ghost predicate Valid()
      reads this
    {
      Caches(cache, history, language)
    }

    constructor (language: Language)
      ensures Valid() && this.language == language
    {
      this.language := language;
      cache, history := [], [];
    }

    method Find(t: string) returns (at: Option<nat>)
      ensures at.Some? ==> at.value < |cache| && cache[at.value].token == t
      ensures at.None? ==> t !in Tokens(cache)
    {
      for i := 0 to |cache|
        invariant forall k :: 0 <= k < i ==> cache[k].token != t
      {
        if cache[i].token == t {
          return Some(i);
        }
      }
      at := None;
    }

    method Lookup(t: string) returns (known: bool)
      requires Valid()
      modifies `cache, `history
      ensures Valid() && known == language.lookup(t) && history == old(history) + [t] && |cache| <= CAPACITY
    {
      CacheBounded();
      var at := Find(t);
      if at.Some? {
        HitKeeps(cache, history, language, at.value);
        var e := cache[at.value];
        assert e in cache;
        known := e.known;
        cache := cache[..at.value] + cache[at.value + 1..] + [e];
      } else {
        MissKeeps(cache, history, language, t);
        known := language.lookup(t);
        if |cache| >= CAPACITY {
          cache := cache[1..];
        }
        cache := cache + [Entry(t, known)];
      }
      history := history + [t];
    }

    /** The cached answer is the uncached one, whatever came before. */
    method Evaluate(value: Option<string>) returns (r: Verdict)
      requires Valid()
      modifies `cache, `history
      ensures Valid() && |cache| <= CAPACITY
      ensures r == Uncached(language, value)
      ensures old(history) <= history
    {
      CacheBounded();
      if value.None? || language.blank(value.value) {
        return Missing;
      }
      var tokens := language.tokens(value.value);
      if tokens == [] {
        return NotApplicable;
      }
      hide Valid;
      for i := 0 to |tokens|
        invariant Valid() && |cache| <= CAPACITY && old(history) <= history
        invariant AllKnown(language, tokens[..i])
      {
        var t := tokens[i];
        assert tokens[..i + 1] == tokens[..i] + [t];
        if t !in language.accepted {
          var known := Lookup(t);
          if !known {
            assert t in tokens;
            return Failed;
          }
        }
      }
      assert tokens[..|tokens|] == tokens;
      r := Passed;
    }

    lemma CacheBounded()
      requires Valid()
      ensures |cache| <= CAPACITY
    {
    }
  }

  /** Any sequence of calls on one evaluator. */
  method EvaluateAll(language: Language, values: seq<Option<string>>) returns (r: seq<Verdict>)
    ensures |r| == |values| && forall i :: 0 <= i < |values| ==> r[i] == Uncached(language, values[i])
    ensures forall i :: 0 <= i < |values| ==> Means(language, values[i], r[i])
  {
    var evaluator := new SpellingEvaluator(language);
    r := [];
    hide Uncached;
    for i := 0 to |values|
      invariant fresh(evaluator) && evaluator.Valid() && evaluator.language == language
      invariant |r| == i && forall k :: 0 <= k < i ==> r[k] == Uncached(language, values[k])
    {
      var verdict := evaluator.Evaluate(values[i]);
      r := r + [verdict];
    }
    forall i | 0 <= i < |values|
      ensures Means(language, values[i], r[i])
    {
      UncachedMeans(language, values[i]);
    }
  }
}
