/**
 Tokenizing a chunk of text into words and counting them.

 The word counter splits a chunk on runs of the pattern [\W_]+ (every
 character that is not a word character, and the underscore), drops the empty
 strings that the split leaves at the ends, and keeps the case of every token.
 Counts are first gathered in a local dictionary and then added to the shared
 one.
 */
module Tokenizer {

  /** The characters that the separator pattern [\W_]+ does not consume:
      letters and digits (the ASCII subset). Space and underscore are not. */
  function IsWordChar(c: char): (r: bool)
    ensures c == '_' || c == ' ' ==> !r
    ensures ('a' <= c <= 'z') || ('A' <= c <= 'Z') || ('0' <= c <= '9') ==> r
  {
    ('a' <= c <= 'z') || ('A' <= c <= 'Z') || ('0' <= c <= '9')
  }

  /** A non-empty string made only of word characters. */
  predicate IsWord(t: string) {
    t != [] && forall c :: c in t ==> IsWordChar(c)
  }

  /** The pieces a split at every single separator character leaves, in
      order; two adjacent separators leave an empty piece between them.
      Dropping the empty pieces gives the same tokens as a split at maximal
      separator runs. */
  function Pieces(s: string): (r: seq<string>)
    ensures |r| >= 1
    ensures forall i :: 0 <= i < |r| ==> forall c :: c in r[i] ==> IsWordChar(c)
  {
    if s == [] then [""]
    else
      var rest := Pieces(s[1..]);
      if IsWordChar(s[0]) then [[s[0]] + rest[0]] + rest[1..] else [""] + rest
  }

  /** The pieces that are not empty, in order. */
  function NonEmpty(ps: seq<string>): (r: seq<string>)
    ensures forall i :: 0 <= i < |r| ==> r[i] in ps && r[i] != []
  {
    if ps == [] then []
    else if ps[0] == [] then NonEmpty(ps[1..])
    else [ps[0]] + NonEmpty(ps[1..])
  }

  /** The tokens of a chunk of text, in order, case preserved. */
  function Tokens(s: string): seq<string> {
    NonEmpty(Pieces(s))
  }

  /** Every token is a non-empty run of word characters. */
  lemma TokensAreWords(s: string)
    ensures forall i :: 0 <= i < |Tokens(s)| ==> IsWord(Tokens(s)[i])
  {
  }

  /** The word characters of `s`, in order. */
  function WordChars(s: string): string {
    if s == [] then []
    else if IsWordChar(s[0]) then [s[0]] + WordChars(s[1..])
    else WordChars(s[1..])
  }

  /** Strings joined one after the other: the pieces of a chunk without
      their separators, or the blocks of a file as its whole text. */
  function Flatten(ps: seq<string>): string {
    if ps == [] then [] else ps[0] + Flatten(ps[1..])
  }

  /** How often `w` occurs in `words`. */
  function Occurrences(words: seq<string>, w: string): nat {
    if words == [] then 0
    else (if words[0] == w then 1 else 0) + Occurrences(words[1..], w)
  }

  /** The count a word has in a word-count dictionary; an absent word has 0. */
  function CountOf(m: map<string, nat>, w: string): nat {
    if w in m then m[w] else 0
  }

  /** The distinct words of a sequence. */
  function Words(words: seq<string>): set<string> {
    set w | w in words
  }

  lemma WordsAppend(a: seq<string>, b: seq<string>)
    ensures Words(a + b) == Words(a) + Words(b)
  {
    assert forall w :: w in a + b <==> w in a || w in b;
  }

  /** The dictionary `m` after every word of `words` has been added to it
      one occurrence at a time. */
  function AddCounts(m: map<string, nat>, words: seq<string>): (r: map<string, nat>)
    ensures r.Keys == m.Keys + Words(words)
    ensures forall w :: CountOf(r, w) == CountOf(m, w) + Occurrences(words, w)
    decreases |words|
  {
    if words == [] then m
    else AddCounts(m[words[0] := CountOf(m, words[0]) + 1], words[1..])
  }

  lemma AppendAssoc<T>(a: seq<T>, b: seq<T>, c: seq<T>)
    ensures (a + b) + c == a + (b + c)
  {
  }

  // ---------------------------------------------------------------------
  // Splitting at a separator

  lemma {:induction false} NonEmptyAppend(a: seq<string>, b: seq<string>)
    ensures NonEmpty(a + b) == NonEmpty(a) + NonEmpty(b)
  {
    if a == [] {
      assert a + b == b;
    } else {
      assert (a + b)[1..] == a[1..] + b;
      NonEmptyAppend(a[1..], b);
    }
  }

  /** Splitting at one separator character splits the pieces. */
  lemma {:induction false} PiecesSplit(x: string, c: char, y: string)
    requires !IsWordChar(c)
    ensures Pieces(x + [c] + y) == Pieces(x) + Pieces(y)
  {
    if x == [] {
      assert x + [c] + y == [c] + y;
      assert ([c] + y)[1..] == y;
    } else {
      assert (x + [c] + y)[1..] == x[1..] + [c] + y;
      PiecesSplit(x[1..], c, y);
    }
  }

  /** A separator character between two texts separates their tokens: no
      token spans it, and none is lost. */
  lemma TokensSplit(x: string, c: char, y: string)
    requires !IsWordChar(c)
    ensures Tokens(x + [c] + y) == Tokens(x) + Tokens(y)
  {
    PiecesSplit(x, c, y);
    NonEmptyAppend(Pieces(x), Pieces(y));
  }

  /** Text that is empty or ends in a separator can be glued in front of any
      other text without merging tokens. */
  lemma TokensAfterSeparator(x: string, y: string)
    requires x == [] || !IsWordChar(x[|x| - 1])
    ensures Tokens(x + y) == Tokens(x) + Tokens(y)
  {
    if x == [] {
      assert x + y == y;
      assert Tokens(x) == [];
    } else {
      var x', c := x[..|x| - 1], x[|x| - 1];
      assert x == x' + [c] + [];
      assert x + y == x' + [c] + y;
      TokensSplit(x', c, y);
      TokensSplit(x', c, []);
      assert Tokens([]) == [];
    }
  }

  /** A word with no separator in it is a single token. */
  lemma {:induction false} PiecesOfWord(t: string)
    requires forall c :: c in t ==> IsWordChar(c)
    ensures Pieces(t) == [t]
  {
    if t != [] {
      assert forall c :: c in t[1..] ==> c in t;
      PiecesOfWord(t[1..]);
      assert [t[0]] + t[1..] == t;
    }
  }

  lemma TokensOfWord(t: string)
    requires IsWord(t)
    ensures Tokens(t) == [t]
  {
    PiecesOfWord(t);
    assert NonEmpty([t]) == [t] + NonEmpty([]);
  }

  /** Two words with one separator between them are exactly those two
      tokens, each as written: case is kept (so "Hello" and "hello" are
      counted apart), and the underscore separates like any other
      non-word character. */
  lemma TokensOfTwoWords(x: string, c: char, y: string)
    requires IsWord(x) && IsWord(y) && !IsWordChar(c)
    ensures Tokens(x + [c] + y) == [x, y]
  {
    TokensSplit(x, c, y);
    TokensOfWord(x);
    TokensOfWord(y);
  }

  /** Tokenizing keeps every word character: joined together, the tokens are
      exactly the word characters of the text, in order. */
  lemma {:induction false} TokensKeepWordChars(s: string)
    ensures Flatten(Tokens(s)) == WordChars(s)
  {
    PiecesKeepWordChars(s);
    FlattenNonEmpty(Pieces(s));
  }

  lemma {:induction false} PiecesKeepWordChars(s: string)
    ensures Flatten(Pieces(s)) == WordChars(s)
  {
    if s != [] {
      PiecesKeepWordChars(s[1..]);
      var rest := Pieces(s[1..]);
      if IsWordChar(s[0]) {
        var r := [[s[0]] + rest[0]] + rest[1..];
        assert r[1..] == rest[1..];
        assert Flatten(rest) == rest[0] + Flatten(rest[1..]);
        assert Flatten(r) == [s[0]] + rest[0] + Flatten(rest[1..]);
      } else {
        assert ([""] + rest)[1..] == rest;
      }
    }
  }

  lemma {:induction false} FlattenNonEmpty(ps: seq<string>)
    ensures Flatten(NonEmpty(ps)) == Flatten(ps)
  {
    if ps != [] {
      FlattenNonEmpty(ps[1..]);
      if ps[0] != [] {
        assert ([ps[0]] + NonEmpty(ps[1..]))[1..] == NonEmpty(ps[1..]);
      }
    }
  }

  // ---------------------------------------------------------------------
  // Counting

  lemma {:induction false} OccurrencesAppend(a: seq<string>, b: seq<string>, w: string)
    ensures Occurrences(a + b, w) == Occurrences(a, w) + Occurrences(b, w)
  {
    if a == [] {
      assert a + b == b;
    } else {
      assert (a + b)[1..] == a[1..] + b;
      OccurrencesAppend(a[1..], b, w);
    }
  }

  /** A word occurs a positive number of times exactly when it is there. */
  lemma {:induction false} OccurrencesPositive(words: seq<string>, w: string)
    ensures Occurrences(words, w) > 0 <==> w in words
  {
    if words != [] {
      OccurrencesPositive(words[1..], w);
      assert w in words <==> words[0] == w || w in words[1..];
    }
  }

  lemma OccurrencesSnoc(words: seq<string>, i: nat, w: string)
    requires i < |words|
    ensures Occurrences(words[..i + 1], w) == Occurrences(words[..i], w) + (if w == words[i] then 1 else 0)
  {
    assert words[..i + 1] == words[..i] + [words[i]];
    assert [words[i]][1..] == [];
    OccurrencesAppend(words[..i], [words[i]], w);
  }

  /** The local dictionary of ProcessWords: every distinct word of `words`
      mapped to how often it occurs, so every count is at least 1. */
  method CountWords(words: seq<string>) returns (localWordCount: map<string, nat>)
    ensures localWordCount.Keys == Words(words)
    ensures forall w :: w in localWordCount ==> localWordCount[w] == Occurrences(words, w) >= 1
  {
    localWordCount := map[];
    for i := 0 to |words|
      invariant localWordCount.Keys == Words(words[..i])
      invariant forall w :: w in localWordCount ==> localWordCount[w] == Occurrences(words[..i], w)
    {
      var word := words[i];
      OccurrencesPositive(words[..i], word);
      forall w
        ensures Occurrences(words[..i + 1], w) == Occurrences(words[..i], w) + (if w == word then 1 else 0)
      {
        OccurrencesSnoc(words, i, w);
      }
      if word !in localWordCount {
        localWordCount := localWordCount[word := 1];
      } else {
        localWordCount := localWordCount[word := localWordCount[word] + 1];
      }
    }
    assert words[..|words|] == words;
    forall w | w in localWordCount {
      OccurrencesPositive(words, w);
    }
  }

  /** The counts merged so far: the shared counts plus the local counts of
      every key already taken out of `pending`. */
  ghost predicate MergedSoFar(merged: map<string, nat>, shared: map<string, nat>, local: map<string, nat>, pending: set<string>) {
    && pending <= local.Keys
    && merged.Keys == shared.Keys + (local.Keys - pending)
    && forall w :: CountOf(merged, w) == CountOf(shared, w) + (if w in local && w !in pending then local[w] else 0)
  }

  /** Adding the local count of one more key, as AddOrUpdate does, extends
      the merge by that key. */
  lemma MergeKey(merged: map<string, nat>, shared: map<string, nat>, local: map<string, nat>, pending: set<string>, key: string)
    requires MergedSoFar(merged, shared, local, pending) && key in pending
    ensures MergedSoFar(merged[key := if key in merged then merged[key] + local[key] else local[key]],
                        shared, local, pending - {key})
  {
    var merged' := merged[key := if key in merged then merged[key] + local[key] else local[key]];
    forall w ensures CountOf(merged', w) == CountOf(shared, w) + (if w in local && w !in pending - {key} then local[w] else 0) {
      if w == key {
        assert CountOf(merged, w) == CountOf(shared, w);
      }
    }
  }

  /** Adding a local dictionary of counts into a shared one, key by key,
      gives the shared dictionary with every counted word added. */
  lemma MergeIsAddCounts(shared: map<string, nat>, local: map<string, nat>, words: seq<string>, merged: map<string, nat>)
    requires local.Keys == Words(words)
    requires forall w :: w in local ==> local[w] == Occurrences(words, w)
    requires merged.Keys == shared.Keys + local.Keys
    requires forall w :: CountOf(merged, w) == CountOf(shared, w) + (if w in local then local[w] else 0)
    ensures merged == AddCounts(shared, words)
  {
    var added := AddCounts(shared, words);
    forall w | w in merged
      ensures merged[w] == added[w]
    {
      OccurrencesPositive(words, w);
      assert CountOf(merged, w) == CountOf(added, w);
    }
  }
}
