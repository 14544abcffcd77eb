/** What a search reports for a hypothesis: its score, its text, and its words with their time stamps
    (ctc-prefix-decoder.h:39-56, ctc-prefix-decoder.cpp:265-278, 301-340). */
module CtcText {
  import opened Sequences
  import opened CtcPaths

  type Vocab = nat -> string

  datatype WordPiece = WordPiece(word: string, start: nat, end: nat)

  datatype DecodeResult = DecodeResult(score: real, sentence: string, wordPieces: seq<WordPiece>)

  /** The words of a hypothesis, one behind the other. */
  function Sentence(vocab: Vocab, input: Path): string {
    if input == [] then "" else Sentence(vocab, Init(input)) + vocab(Last(input))
  }

  /** A result for a hypothesis: its own text and score, and a piece for each token that ends at the token's stamp. */
  ghost predicate IsResult(r: DecodeResult, vocab: Vocab, score: real, input: Path, stamps: seq<nat>) {
    && r.score == score && r.sentence == Sentence(vocab, input) && |r.wordPieces| == |input| == |stamps|
    && forall j :: 0 <= j < |input| ==> r.wordPieces[j] == WordPiece(vocab(input[j]), 0, stamps[j])
  }

  /** The text of a result is what its pieces spell. */
  function Spelling(pieces: seq<WordPiece>): string {
    if pieces == [] then "" else Spelling(Init(pieces)) + Last(pieces).word
  }

  lemma {:induction false} PiecesSpell(r: DecodeResult, vocab: Vocab, score: real, input: Path, stamps: seq<nat>)
    requires IsResult(r, vocab, score, input, stamps)
    ensures Spelling(r.wordPieces) == r.sentence
    decreases |input|
  {
    if input != [] {
      var shorter := DecodeResult(score, Sentence(vocab, Init(input)), Init(r.wordPieces));
      PiecesSpell(shorter, vocab, score, Init(input), Init(stamps));
    }
  }

  // ---------- word marks ----------

  /** The mark that begins a word. */
  const MARK: char := '\U{2581}'

  function Unmarked(c: char): char {
    if c == MARK then ' ' else c
  }

  /** Every mark becomes a blank. */
  function Spaced(text: string): (r: string)
    ensures |r| == |text| && forall i :: 0 <= i < |r| ==> r[i] == Unmarked(text[i])
  {
    if text == "" then "" else [Unmarked(text[0])] + Spaced(text[1..])
  }

  /** The first mark from `pos` on, or the end of the text. */
  function Find(text: string, pos: nat): (found: nat)
    requires pos <= |text|
    ensures pos <= found <= |text| && (found < |text| ==> text[found] == MARK)
    ensures forall i :: pos <= i < found ==> text[i] != MARK
    decreases |text| - pos
  {
    if pos == |text| || text[pos] == MARK then pos else Find(text, pos + 1)
  }

  method ReplaceMarks(text: string) returns (result: string)
    ensures result == Spaced(text)
  {
    hide Spaced, Find;
    result := text;
    var pos := Find(result, 0);
    while pos < |result|
      invariant pos <= |result| == |text| && (pos < |text| ==> result[pos] == MARK)
      invariant forall i :: 0 <= i < |text| ==> result[i] == if i < pos then Unmarked(text[i]) else text[i]
    {
      ghost var was := result;
      result := result[..pos] + " " + result[pos + 1..];
      assert result == was[pos := ' '];
      pos := Find(result, pos + 1);
    }
  }
}
