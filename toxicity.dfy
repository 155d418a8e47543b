/**
 * ai.py: `check_toxicity`. The pretrained model (tokenizer, 256-token
 * truncation, softmax and argmax) is the classifier value `clf`: for a
 * non-blank text it yields the index of the most probable class and that
 * probability; `id2label` names the classes.
 */
module Toxicity {
  import opened Text

  /** `TOXIC_THRESHOLD`. */
  const Threshold: real := 0.7

  /** A probability. */
  type Score = r: real | 0.0 <= r <= 1.0

  /** The argmax of the model's softmax output: a class index and its probability. */
  datatype Inference = Inference(index: nat, score: Score)

  /** The loaded model: inference on a (stripped, non-blank) text, and `model.config.id2label`. */
  datatype Classifier = Classifier(infer: string -> Inference, id2label: map<nat, string>)

  /** The dict `check_toxicity` returns. */
  datatype Verdict = Verdict(labelName: string, score: real, isToxic: bool)

  /** `id2label.get(idx, str(idx))`. */
  function LabelOf(clf: Classifier, index: nat): string {
    if index in clf.id2label then clf.id2label[index] else NatToString(index)
  }

  /** The decision rule: toxic iff the score reaches the threshold and the
      lower-cased label contains `"tox"`. */
  predicate IsToxic(labelName: string, score: real) {
    score >= Threshold && Contains(Lower(labelName), "tox")
  }

  /** `check_toxicity(text)`: a blank text is non-toxic with score 0 without
      consulting the model; otherwise the model's label and score are passed
      through next to the verdict, which depends on them alone. */
  function CheckToxicity(text: string, clf: Classifier): (v: Verdict)
    ensures v.isToxic <==> IsToxic(v.labelName, v.score)
    ensures 0.0 <= v.score <= 1.0
    ensures IsBlank(text) ==> v == Verdict("non_toxic", 0.0, false)
    ensures !IsBlank(text) ==>
      v.labelName == LabelOf(clf, clf.infer(Strip(text)).index) && v.score == clf.infer(Strip(text)).score
  {
    var t := Strip(text);
    if t == [] then
      Verdict("non_toxic", 0.0, false)
    else
      var out := clf.infer(t);
      var labelName := LabelOf(clf, out.index);
      Verdict(labelName, out.score, out.score >= Threshold && Contains(Lower(labelName), "tox"))
  }

  /** A blank text gets the same verdict whatever the model is: the model is not consulted. */
  lemma BlankIgnoresClassifier(text: string, clf1: Classifier, clf2: Classifier)
    requires IsBlank(text)
    ensures CheckToxicity(text, clf1) == CheckToxicity(text, clf2) == Verdict("non_toxic", 0.0, false)
  {
  }

  /** Surrounding whitespace does not change the verdict: only the stripped text is classified. */
  lemma StripInsensitive(text: string, clf: Classifier)
    ensures CheckToxicity(Strip(text), clf) == CheckToxicity(text, clf)
  {
    StripIdempotent(text);
  }

  /** The boundary is inclusive: score 0.7 with label `"toxic"` is toxic, while
      any score below 0.7 is never toxic, whatever the label. */
  lemma ThresholdBoundary(labelName: string, score: real)
    ensures IsToxic("toxic", Threshold)
    ensures score < Threshold ==> !IsToxic(labelName, score)
  {
    assert Lower("toxic") == "toxic";
    assert "toxic"[..3] == "tox";
  }

  /** A label without `"tox"` in any letter case is never toxic, whatever the score. */
  lemma LabelWithoutToxNeverToxic(text: string, clf: Classifier)
    requires !Contains(Lower(CheckToxicity(text, clf).labelName), "tox")
    ensures !CheckToxicity(text, clf).isToxic
  {
  }

  /** When the model's class index has no name, the label is the index in
      decimal, which contains no `"tox"`, so the text is not toxic. */
  lemma UnnamedClassNeverToxic(text: string, clf: Classifier)
    requires clf.infer(Strip(text)).index !in clf.id2label
    ensures !IsBlank(text) ==> CheckToxicity(text, clf).labelName == NatToString(clf.infer(Strip(text)).index)
    ensures !CheckToxicity(text, clf).isToxic
  {
    var digits := NatToString(clf.infer(Strip(text)).index);
    assert Lower(digits) == digits;
    assert 't' !in digits;
    NotContainsWithoutFirst(digits, "tox");
  }
}
