/**
 Boundary-safe chunking of a file.

 A file is read block by block. Each block is prefixed with the partial word
 carried over from the previous block, the combined text is cut at its last
 space with CutWord, the part before the cut is emitted as a chunk and the
 part after it becomes the new carry. When a read returns no characters the
 final carry, possibly empty, is emitted as the last chunk.
 */
module Chunking {
  import opened Tokenizer

  /** The result of CutWord: the partial word left at the end of the text,
      and the text to emit without it. */
  datatype Cut = Cut(trailing: string, chunk: string)

  /** The index of the last occurrence of `c` in `s`, or -1 when there is none. */
  function LastIndexOf(s: string, c: char): (i: int)
    ensures -1 <= i < |s|
    ensures 0 <= i ==> s[i] == c
    ensures forall j :: i < j < |s| ==> s[j] != c
  {
    if s == [] then -1
    else if s[|s| - 1] == c then |s| - 1
    else LastIndexOf(s[..|s| - 1], c)
  }

  /** Splits a text at its last space. A text that is empty or ends in a
      space is emitted whole; a text without any space is carried whole; and
      otherwise the text is the chunk, one space and the trailing part. */
  function CutWord(contentChunk: string): (r: Cut)
    ensures ' ' !in r.trailing
    ensures contentChunk == [] || contentChunk[|contentChunk| - 1] == ' ' ==> r == Cut("", contentChunk)
    ensures contentChunk != [] && ' ' !in contentChunk ==> r == Cut(contentChunk, "")
    ensures ' ' in contentChunk && contentChunk[|contentChunk| - 1] != ' ' ==>
              r.chunk + " " + r.trailing == contentChunk
  {
    var lastSpaceIndex := LastIndexOf(contentChunk, ' ');
    if lastSpaceIndex + 1 == |contentChunk| then
      Cut("", contentChunk)
    else if lastSpaceIndex != -1 then
      assert contentChunk == contentChunk[..lastSpaceIndex] + " " + contentChunk[lastSpaceIndex + 1..];
      Cut(contentChunk[lastSpaceIndex + 1..], contentChunk[..lastSpaceIndex])
    else
      Cut(contentChunk, "")
  }

  /** The texts of the chunks the read loop emits for a file whose
      successive reads return the non-empty `blocks`, starting with `carry`.
      Without `readError` the read after the last block returns nothing and
      the final carry is emitted as one more chunk; with `readError` that
      read throws and nothing more is emitted. */
  function FileChunks(carry: string, blocks: seq<string>, readError: bool): (r: seq<string>)
    ensures |r| == |blocks| + (if readError then 0 else 1)
    decreases blocks
  {
    if blocks == [] then
      (if readError then [] else [carry])
    else
      var cut := CutWord(carry + blocks[0]);
      [cut.chunk] + FileChunks(cut.trailing, blocks[1..], readError)
  }

  /** The partial word still carried once every block has been read. */
  function FinalCarry(carry: string, blocks: seq<string>): (r: string)
    ensures ' ' !in r || (blocks == [] && r == carry)
    decreases blocks
  {
    if blocks == [] then carry
    else FinalCarry(CutWord(carry + blocks[0]).trailing, blocks[1..])
  }

  /** The tokens of every chunk, chunk after chunk. */
  function TokensOfAll(chunks: seq<string>): seq<string> {
    if chunks == [] then [] else Tokens(chunks[0]) + TokensOfAll(chunks[1..])
  }

  lemma {:induction false} TokensOfAllAppend(a: seq<string>, b: seq<string>)
    ensures TokensOfAll(a + b) == TokensOfAll(a) + TokensOfAll(b)
  {
    if a == [] {
      assert a + b == b;
    } else {
      assert (a + b)[1..] == a[1..] + b;
      TokensOfAllAppend(a[1..], b);
    }
  }

  /** The chunk CutWord emits and the carry it keeps, glued back together in
      front of any later text, have the same tokens as the text it was given
      followed by that later text: the cut never splits a word. */
  lemma CutWordKeepsTokens(s: string, rest: string)
    ensures Tokens(CutWord(s).chunk) + Tokens(CutWord(s).trailing + rest) == Tokens(s + rest)
  {
    var cut := CutWord(s);
    if s == [] || s[|s| - 1] == ' ' {
      TokensAfterSeparator(s, rest);
      assert Tokens("") == [];
      assert "" + rest == rest;
    } else if ' ' in s {
      TokensSplit(cut.chunk, ' ', cut.trailing + rest);
      assert cut.chunk + [' '] + (cut.trailing + rest) == s + rest;
    } else {
      assert Tokens("") == [];
    }
  }

  /** Emitting a file chunk by chunk loses no token and splits none: the
      chunks emitted before the last read hold the tokens of the text read,
      except for those of the final carry. */
  lemma {:induction false} ChunksKeepTokens(carry: string, blocks: seq<string>)
    ensures TokensOfAll(FileChunks(carry, blocks, true)) + Tokens(FinalCarry(carry, blocks))
            == Tokens(carry + Flatten(blocks))
    decreases blocks
  {
    if blocks == [] {
      assert carry + [] == carry;
    } else {
      ChunksKeepTokens(CutWord(carry + blocks[0]).trailing, blocks[1..]);
      ChunksKeepTokensStep(carry, blocks);
    }
  }

  /** The induction step of ChunksKeepTokens: one more read in front. */
  lemma {:induction false} ChunksKeepTokensStep(carry: string, blocks: seq<string>)
    requires blocks != []
    requires var trailing := CutWord(carry + blocks[0]).trailing;
      TokensOfAll(FileChunks(trailing, blocks[1..], true)) + Tokens(FinalCarry(trailing, blocks[1..]))
      == Tokens(trailing + Flatten(blocks[1..]))
    ensures TokensOfAll(FileChunks(carry, blocks, true)) + Tokens(FinalCarry(carry, blocks))
            == Tokens(carry + Flatten(blocks))
  {
    var text, rest := carry + blocks[0], Flatten(blocks[1..]);
    var cut := CutWord(text);
    var first, later := Tokens(cut.chunk), TokensOfAll(FileChunks(cut.trailing, blocks[1..], true));
    var last := Tokens(FinalCarry(cut.trailing, blocks[1..]));
    assert TokensOfAll(FileChunks(carry, blocks, true)) == first + later by {
      ChunksStep(carry, blocks);
    }
    assert first + Tokens(cut.trailing + rest) == Tokens(carry + Flatten(blocks)) by {
      CutWordKeepsTokens(text, rest);
      FlattenStep(carry, blocks);
    }
    assert FinalCarry(carry, blocks) == FinalCarry(cut.trailing, blocks[1..]);
    AppendAssoc(first, later, last);
  }

  /** One read of the loop: the first chunk, then the chunks of the rest. */
  lemma {:induction false} ChunksStep(carry: string, blocks: seq<string>)
    requires blocks != []
    ensures TokensOfAll(FileChunks(carry, blocks, true))
         == Tokens(CutWord(carry + blocks[0]).chunk)
            + TokensOfAll(FileChunks(CutWord(carry + blocks[0]).trailing, blocks[1..], true))
  {
    var cut := CutWord(carry + blocks[0]);
    var later := FileChunks(cut.trailing, blocks[1..], true);
    assert FileChunks(carry, blocks, true) == [cut.chunk] + later;
    TokensOfAllCons(cut.chunk, later);
  }

  lemma FlattenStep(carry: string, blocks: seq<string>)
    requires blocks != []
    ensures carry + Flatten(blocks) == (carry + blocks[0]) + Flatten(blocks[1..])
  {
  }

  lemma TokensOfAllCons(chunk: string, later: seq<string>)
    ensures TokensOfAll([chunk] + later) == Tokens(chunk) + TokensOfAll(later)
  {
    assert ([chunk] + later)[1..] == later;
  }

  /** A file read to its end emits its chunks as a read that fails at the end
      would, plus the final carry. */
  lemma {:induction false} FinalChunkIsCarry(carry: string, blocks: seq<string>)
    ensures FileChunks(carry, blocks, false) == FileChunks(carry, blocks, true) + [FinalCarry(carry, blocks)]
    decreases blocks
  {
    if blocks != [] {
      var cut := CutWord(carry + blocks[0]);
      FinalChunkIsCarry(cut.trailing, blocks[1..]);
    }
  }

  /** A file read to its end: the chunks together hold exactly the tokens of
      the file's text, in order. */
  lemma ChunkingPreservesTokens(blocks: seq<string>)
    ensures TokensOfAll(FileChunks("", blocks, false)) == Tokens(Flatten(blocks))
  {
    FinalChunkIsCarry("", blocks);
    ChunksKeepTokens("", blocks);
    TokensOfAllAppend(FileChunks("", blocks, true), [FinalCarry("", blocks)]);
    assert TokensOfAll([FinalCarry("", blocks)]) == Tokens(FinalCarry("", blocks)) + TokensOfAll([]);
    assert "" + Flatten(blocks) == Flatten(blocks);
  }

  /** Where the block boundaries fall does not change the tokens the chunks
      hold, so the word counts of a file do not depend on the block size. */
  lemma ChunkingIgnoresBlockBoundaries(blocks1: seq<string>, blocks2: seq<string>)
    requires Flatten(blocks1) == Flatten(blocks2)
    ensures TokensOfAll(FileChunks("", blocks1, false)) == TokensOfAll(FileChunks("", blocks2, false))
  {
    ChunkingPreservesTokens(blocks1);
    ChunkingPreservesTokens(blocks2);
  }

  /** The cases pinned by the unit test of CutWord. */
  lemma CutWordExamples()
    ensures CutWord("hello world again") == Cut("again", "hello world")
    ensures CutWord("hello world again ") == Cut("", "hello world again ")
  {
    assert "hello world again"[11] == ' ';
    assert "hello world again"[..11] == "hello world";
    assert "hello world again"[12..] == "again";
  }
}
