/** The sanity check at the start of keyword extraction: the words must be as long as the sentence. */
module KeywordExtractor {
  import opened Unicode
  import opened WordTrie
  import HMM = HMMSegment
  import MixSegment

  function TotalSize(words: seq<Word>): (n: nat)
    ensures n == |Bytes(words)|
  {
    if words == [] then 0 else |words[0].word| + TotalSize(words[1..])
  }

  /** Extraction goes on exactly when the sentence decodes; "words illegal" means bad UTF-8. */
  method WordsLegal(trie: Trie, minWeight: real, user: set<Rune>, model: HMM.HMMModel, symbols: set<Rune>,
                    sentence: seq<byte>) returns (legal: bool)
    requires trie.Valid() && SelfNamed(trie.Contents()) && model.Valid() && |sentence| < 0x1_0000_0000
    ensures legal <==> Decodable(sentence)
  {
    var words := MixSegment.Cut(trie, minWeight, user, model, symbols, sentence, true);
    var offset := 0;
    for i := 0 to |words|
      invariant offset + TotalSize(words[i..]) == TotalSize(words)
    {
      offset := offset + |words[i].word|;
    }
    legal := offset == |sentence|;
  }
}
