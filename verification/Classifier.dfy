/** Turning a model's answer into a verdict: canonical label and clamped confidence. */
module Classifier {
  import opened Prelude
  import opened Text

  /** A 32-bit float as far as clamping can tell values apart. */
  datatype Score = NaN | NegInfinity | PosInfinity | Finite(value: real)

  /** The model's parsed output; every field may be missing or arbitrary. */
  datatype Output = Output(matched: bool, criterionLabel: Option<string>, confidence: Option<Score>)

  /** A transport failure, unparsable text, or an output. */
  datatype Reply = Broken | Parsed(output: Output)

  datatype Verdict = Verdict(criterionLabel: string, confidence: real)

  function Clamp(s: Score): (r: real)
    ensures 0.0 <= r <= 1.0
    ensures s.Finite? && 0.0 <= s.value <= 1.0 ==> r == s.value
  {
    match s
    case NaN => 0.0
    case NegInfinity => 0.0
    case PosInfinity => 1.0
    case Finite(v) => if v < 0.0 then 0.0 else if v > 1.0 then 1.0 else v
  }

  /** `find`: the first label equal to `wanted` up to ASCII case. */
  function FirstCaseless(labels: seq<string>, wanted: string): Option<nat> {
    if labels == [] then None
    else if EqIgnoreCase(labels[0], wanted) then Some(0)
    else match FirstCaseless(labels[1..], wanted) case None => None case Some(i) => Some(i + 1)
  }

  /** `find`: the first label exactly equal to `wanted`. */
  function FirstExact(labels: seq<string>, wanted: string): Option<nat> {
    if labels == [] then None
    else if labels[0] == wanted then Some(0)
    else match FirstExact(labels[1..], wanted) case None => None case Some(i) => Some(i + 1)
  }

  function RawLabel(o: Output): string {
    if o.criterionLabel.Some? then Trim(o.criterionLabel.value) else ""
  }

  /** The criterion the classifier settles on, as an index, if any. */
  function Chosen(reply: Reply, labels: seq<string>): Option<nat> {
    if labels == [] || reply.Broken? || !reply.output.matched || RawLabel(reply.output) == "" then None
    else FirstCaseless(labels, RawLabel(reply.output))
  }

  lemma {:induction false} CaselessInRange(labels: seq<string>, wanted: string)
    ensures FirstCaseless(labels, wanted).Some? ==> FirstCaseless(labels, wanted).value < |labels|
  {
    if labels != [] {
      CaselessInRange(labels[1..], wanted);
    }
  }

  /** `run_classification`: an error, no match, or the canonical label with a clamped confidence. */
  function RunClassification(reply: Reply, labels: seq<string>): Result<Option<Verdict>, ()> {
    if labels == [] then Ok(None)
    else if reply.Broken? then Err(())
    else
      CaselessInRange(labels, RawLabel(reply.output));
      match Chosen(reply, labels)
      case None => Ok(None)
      case Some(i) =>
        var score := if reply.output.confidence.Some? then reply.output.confidence.value else Finite(1.0);
        Ok(Some(Verdict(labels[i], Clamp(score))))
  }

  /**
   * The engine looks the verdict's label up again, exactly and from the front. It always lands
   * on the criterion the classifier chose, even among duplicate labels or labels that differ
   * only in case.
   */
  lemma {:induction false} LookupFindsTheChosenCriterion(labels: seq<string>, wanted: string)
    requires FirstCaseless(labels, wanted).Some?
    ensures var i := FirstCaseless(labels, wanted).value;
            i < |labels| && FirstExact(labels, labels[i]) == Some(i)
  {
    CaselessInRange(labels, wanted);
    if !EqIgnoreCase(labels[0], wanted) {
      CaselessInRange(labels[1..], wanted);
      LookupFindsTheChosenCriterion(labels[1..], wanted);
      var j := FirstCaseless(labels[1..], wanted).value;
      CaselessMatches(labels[1..], wanted);
      assert labels[1..][j] == labels[j + 1];
    }
  }

  lemma {:induction false} CaselessMatches(labels: seq<string>, wanted: string)
    requires FirstCaseless(labels, wanted).Some?
    ensures var i := FirstCaseless(labels, wanted).value; i < |labels| && EqIgnoreCase(labels[i], wanted)
  {
    if !EqIgnoreCase(labels[0], wanted) {
      CaselessMatches(labels[1..], wanted);
    }
  }

  /** Every verdict names a known criterion, is found again by the engine, and is within [0, 1]. */
  lemma VerdictIsSound(reply: Reply, labels: seq<string>)
    requires RunClassification(reply, labels).Ok? && RunClassification(reply, labels).value.Some?
    ensures var v := RunClassification(reply, labels).value.value;
            && 0.0 <= v.confidence <= 1.0
            && Chosen(reply, labels).Some?
            && FirstExact(labels, v.criterionLabel) == Chosen(reply, labels)
            && Chosen(reply, labels).value < |labels|
  {
    LookupFindsTheChosenCriterion(labels, RawLabel(reply.output));
  }

  /**
   * There is a verdict exactly when the model claims a match and its trimmed label is, up to case,
   * one of the criteria; it is the first such criterion. Its confidence is the model's, kept within
   * [0, 1]; a missing one counts as certain, a NaN as none.
   */
  lemma VerdictIff(reply: Reply, labels: seq<string>)
    ensures (RunClassification(reply, labels).Ok? && RunClassification(reply, labels).value.Some?)
       <==> && reply.Parsed? && reply.output.matched && RawLabel(reply.output) != ""
            && exists i | 0 <= i < |labels| :: EqIgnoreCase(labels[i], RawLabel(reply.output))
    ensures Chosen(reply, labels).Some? ==>
              var k := Chosen(reply, labels).value;
              var v := RunClassification(reply, labels).value.value;
              && k < |labels| && v.criterionLabel == labels[k] && EqIgnoreCase(labels[k], RawLabel(reply.output))
              && (forall j | 0 <= j < k :: !EqIgnoreCase(labels[j], RawLabel(reply.output)))
              && (reply.output.confidence == None ==> v.confidence == 1.0)
              && (reply.output.confidence == Some(NaN) ==> v.confidence == 0.0)
              && (reply.output.confidence == Some(NegInfinity) ==> v.confidence == 0.0)
              && (reply.output.confidence == Some(PosInfinity) ==> v.confidence == 1.0)
              && forall x :: reply.output.confidence == Some(Finite(x)) ==>
                   v.confidence == if x < 0.0 then 0.0 else if x > 1.0 then 1.0 else x
    ensures RunClassification(reply, labels).Err? <==> labels != [] && reply.Broken?
  {
    hide EqIgnoreCase;
    if reply.Parsed? {
      var wanted := RawLabel(reply.output);
      CaselessIsFirst(labels, wanted);
    }
  }

  /** White space around the model's label does not count. */
  lemma RawLabelIsTrimmed(o: Output, i: nat, j: nat)
    requires o.criterionLabel.Some? && i < j <= |o.criterionLabel.value|
    requires var s := o.criterionLabel.value;
             && !IsSpace(s[i]) && !IsSpace(s[j - 1])
             && forall k | 0 <= k < |s| && !(i <= k < j) :: IsSpace(s[k])
    ensures RawLabel(o) == o.criterionLabel.value[i..j]
  {
    var s := o.criterionLabel.value;
    var x, y := TrimIsInner(s);
    hide IsSpace;
    assert x <= i < y && x < j <= y;
  }

  lemma {:induction false} CaselessIsFirst(labels: seq<string>, wanted: string)
    ensures match FirstCaseless(labels, wanted)
            case None => forall j | 0 <= j < |labels| :: !EqIgnoreCase(labels[j], wanted)
            case Some(k) => k < |labels| && EqIgnoreCase(labels[k], wanted)
                            && forall j | 0 <= j < k :: !EqIgnoreCase(labels[j], wanted)
  {
    hide EqIgnoreCase;
    if labels != [] && !EqIgnoreCase(labels[0], wanted) {
      CaselessIsFirst(labels[1..], wanted);
      assert forall j | 0 < j < |labels| :: labels[j] == labels[1..][j - 1];
    }
  }
}
