/**
 * The trigger-gesture decision of the live effect (`predictGesture`).  The
 * trained classifier is an uninterpreted function from the 126 features to a
 * probability; an absent (not yet loaded) model is `None`.
 */
module Gesture {
  import opened Wrappers
  import opened Landmarks

  type Classifier = seq<real> -> real

  /** The default threshold: the classifier must be near-certain. */
  const DefaultThreshold: real := 0.999

  /**
   * Fails closed: false without consulting the classifier when the model or
   * either hand is missing; otherwise the classifier's probability for the
   * right-then-left features must strictly exceed the threshold.
   */
  function PredictGesture(model: Option<Classifier>, right: Option<Hand>, left: Option<Hand>,
                          sqrt: real -> real, threshold: real): (fires: bool)
    ensures fires ==> model.Some? && right.Some? && left.Some?
    ensures model.Some? && right.Some? && left.Some? ==>
      (fires <==> model.value(Extract(right.value, left.value, sqrt)) > threshold)
  {
    if model.None? || right.None? || left.None? then false
    else
      var prob := model.value(Extract(right.value, left.value, sqrt));
      prob > threshold
  }

  /** With a hand missing, the answer is false whatever the classifier would say. */
  lemma ClassifierNotConsulted(m1: Classifier, m2: Classifier, right: Option<Hand>, left: Option<Hand>,
                               sqrt: real -> real, threshold: real)
    requires right.None? || left.None?
    ensures !PredictGesture(Some(m1), right, left, sqrt, threshold)
    ensures PredictGesture(Some(m1), right, left, sqrt, threshold)
         == PredictGesture(Some(m2), right, left, sqrt, threshold)
  {
  }

  /** Raising the threshold can only turn a detection off. */
  lemma ThresholdMonotone(model: Option<Classifier>, right: Option<Hand>, left: Option<Hand>,
                          sqrt: real -> real, t1: real, t2: real)
    requires t1 <= t2
    ensures PredictGesture(model, right, left, sqrt, t2) ==> PredictGesture(model, right, left, sqrt, t1)
  {
  }

  /** Moving either hand in the image does not change the decision. */
  lemma PredictTranslationInvariant(model: Option<Classifier>, right: Hand, left: Hand,
                                    vr: Point, vl: Point, sqrt: real -> real, threshold: real)
    ensures PredictGesture(model, Some(Translate(right, vr)), Some(Translate(left, vl)), sqrt, threshold)
         == PredictGesture(model, Some(right), Some(left), sqrt, threshold)
  {
    TranslationInvariant(right, vr, sqrt);
    TranslationInvariant(left, vl, sqrt);
    assert Extract(Translate(right, vr), Translate(left, vl), sqrt) == Extract(right, left, sqrt);
  }

  /** A probability of 0.9995 on two present hands fires at the default threshold; 0.999 does not. */
  lemma DefaultThresholdIsStrict(right: Hand, left: Hand, sqrt: real -> real)
    ensures PredictGesture(Some(_ => 0.9995), Some(right), Some(left), sqrt, DefaultThreshold)
    ensures !PredictGesture(Some(_ => 0.999), Some(right), Some(left), sqrt, DefaultThreshold)
  {
  }
}
