/** `tokenize_feature`, `tokenize_title` and `cut_length` of predictor.py:
    map a request's cells to vocabulary ids. Vocabularies are maps from the
    token text to its id; a missing special token reads as `None`. */
module Tokenize {
  import opened Wrappers
  import Strings
  import TextCleaning

  const UnkToken := "[UNK]"
  const NoneToken := "[NONE]"

  /** The vocabulary `tokenize_feature` uses for `feature_name`. */
  function FeatureVocab(featureName: string, docVocab: map<string, int>, journalVocab: map<string, int>): map<string, int>
  {
    if featureName == "doc_type" then docVocab else journalVocab
  }

  /** `tokenize_feature(feature, feature_name)`: one id, the feature's own when
      it is a known string, `[UNK]`'s when it is present but unknown, and
      `[NONE]`'s when it is missing or empty. Keys are strings, so a
      non-string value is never found. */
  function TokenizeFeature(feature: Field, featureName: string, docVocab: map<string, int>,
                           journalVocab: map<string, int>): (r: seq<Option<int>>)
    ensures |r| == 1
    ensures var vocab := FeatureVocab(featureName, docVocab, journalVocab);
      && (!Truthy(feature) ==> r[0] == Get(vocab, NoneToken))
      && (Truthy(feature) && feature.Text? && feature.s in vocab ==> r[0] == Some(vocab[feature.s]))
      && (Truthy(feature) && !(feature.Text? && feature.s in vocab) ==> r[0] == Get(vocab, UnkToken))
  {
    var vocab := FeatureVocab(featureName, docVocab, journalVocab);
    var unk := Get(vocab, UnkToken);
    var none := Get(vocab, NoneToken);
    if Truthy(feature) then
      match feature
      case Text(s) => [GetOr(vocab, s, unk)]
      case _ => [unk]
    else [none]
  }

  /** The id of one title word: its own, or `[UNK]`'s. */
  function WordToken(vocab: map<string, int>, w: string): Option<int>
  {
    GetOr(vocab, w, Get(vocab, UnkToken))
  }

  /** `tokenize_title(feature)`: one id per piece of `feature.split(" ")`, or
      the single `[NONE]` id for the empty string. */
  function TokenizeTitle(feature: string, vocab: map<string, int>): (r: seq<Option<int>>)
    ensures feature == "" ==> r == [Get(vocab, NoneToken)]
    ensures feature != "" ==> |r| == Strings.Count(feature, ' ') + 1
    ensures feature != "" ==> forall k :: 0 <= k < |r| ==> r[k] == WordToken(vocab, Strings.Split(feature, ' ')[k])
  {
    var pieces := Strings.Split(feature, ' ');
    if feature != "" then seq(|pieces|, k requires 0 <= k < |pieces| => WordToken(vocab, pieces[k]))
    else [Get(vocab, NoneToken)]
  }

  /** Tokenizing words joined by single spaces gives one id per word, in order. */
  lemma {:induction false} TokenizeJoinedWords(words: seq<string>, vocab: map<string, int>)
    requires |words| >= 2 || (|words| == 1 && words[0] != "")
    requires forall k :: 0 <= k < |words| ==> ' ' !in words[k]
    ensures var r := TokenizeTitle(Strings.Join(words, ' '), vocab);
      |r| == |words| && forall k :: 0 <= k < |words| ==> r[k] == WordToken(vocab, words[k])
  {
    var s := Strings.Join(words, ' ');
    Strings.SplitJoin(words, ' ');
    if |words| == 1 {
      assert s == words[0];
    } else {
      assert s == words[0] + [' '] + Strings.Join(words[1..], ' ');
    }
    assert s != "";
  }

  /** A cleaned title gets one id per run of letters and digits of the
      lower-cased title, in order, and the single `[NONE]` id when it has none. */
  lemma TokenizeCleanTitle(t: string, vocab: map<string, int>)
    ensures var words := TextCleaning.AlnumRuns(TextCleaning.Lower(t));
      var r := TokenizeTitle(TextCleaning.CleanText(Text(t)), vocab);
      && (|words| == 0 ==> r == [Get(vocab, NoneToken)])
      && (|words| > 0 ==> |r| == |words| && forall k :: 0 <= k < |words| ==> r[k] == WordToken(vocab, words[k]))
  {
    var words := TextCleaning.AlnumRuns(TextCleaning.Lower(t));
    TextCleaning.CleanTextIsJoinedRuns(t);
    TextCleaning.RunsAreWords(TextCleaning.Lower(t));
    if |words| > 0 {
      assert forall k :: 0 <= k < |words| ==> ' ' !in words[k];
      TokenizeJoinedWords(words, vocab);
    }
  }

  /** `cut_length(data, seq_len)`: the slice `data[:seq_len]`; a negative
      `seq_len` drops that many elements from the end. */
  function CutLength<T>(data: seq<T>, seqLen: int): (r: seq<T>)
    ensures r <= data
    ensures seqLen >= 0 ==> |r| == if seqLen < |data| then seqLen else |data|
    ensures seqLen < 0 ==> |r| == if |data| + seqLen > 0 then |data| + seqLen else 0
  {
    if seqLen >= 0 then (if seqLen < |data| then data[..seqLen] else data)
    else (if |data| + seqLen > 0 then data[..|data| + seqLen] else [])
  }
}
