/**
 * The nonconformity-function factory: a process-wide singleton that turns an
 * integer strategy selector, a label array and a classifier into one of the
 * three classification nonconformity strategies, or reports a configuration
 * error.
 *
 * The classifier is opaque here; only the two capabilities the factory
 * inspects (it produces class probabilities; it is a support-vector machine)
 * are modelled.
 */
module NonconformityFactory {
  import opened Wrappers

  type Label = real

  /** An underlying classifier, seen only through the interfaces it implements. */
  datatype Classifier = Classifier(id: nat, probabilityCapable: bool, svmCapable: bool)

  /** A classifier usable by the hinge-loss strategy: either one that produces
      class probabilities itself, or the pseudo-probability adapter around one
      that does not. */
  datatype ProbabilityClassifier =
    | Native(classifier: Classifier)
    | PseudoProbability(wrapped: Classifier, adapterClasses: seq<Label>)

  /** The three nonconformity strategies, each carrying the label array it was given. */
  datatype Strategy =
    | HingeLoss(classes: seq<Label>, probabilities: ProbabilityClassifier)
    | SvmDistance(classes: seq<Label>, svm: Classifier)
    | AttributeAverage(classes: seq<Label>)

  /** The exception the factory throws. */
  datatype Exception = UnsupportedOperation(message: string)

  const HingeLossName: string := "hinge loss nonconformity function"
  const SvmDistanceName: string := "SVM distance nonconformity function"
  const AttributeAverageName: string := "attribute average nonconformity function"

  const UnknownTypeMessage: string := "Unknown nonconformity function type."

  /** The message of the error raised when the SVM-distance strategy is asked for a non-SVM classifier. */
  function NotSvmMessage(): (m: string)
    ensures |m| > |SvmDistanceName| + 1
    ensures m[|m| - |SvmDistanceName| - 1..|m| - 1] == SvmDistanceName
  {
    "The selected classifier does not implement the " +
    "ISVMClassifier interface and, thus, cannot be used " +
    "with the " + SvmDistanceName + "."
  }

  /** The factory; it has no state, so there is exactly one value of this type. */
  datatype Factory = TheFactory {

    /** The strategy names offered for enumeration, in selector order. */
    function NonconformityFunctions(): (names: seq<string>)
      ensures |names| == 3
      ensures names[0] == HingeLossName && names[1] == SvmDistanceName && names[2] == AttributeAverageName
    {
      [HingeLossName, SvmDistanceName, AttributeAverageName]
    }

    /** Builds the strategy with selector `kind` over `classes` and `classifier`. */
    function CreateNonconformityFunction(kind: int, classes: seq<Label>, classifier: Classifier)
      : (r: Result<Strategy, Exception>)
      // which selectors succeed
      ensures r.Success? <==> (kind == 0 || kind == 2 || (kind == 1 && classifier.svmCapable))
      // the label array is passed through unchanged
      ensures r.Success? ==> r.value.classes == classes
      // selector 0: hinge loss, adapted exactly when the classifier lacks probabilities
      ensures kind == 0 ==> r.Success? && r.value.HingeLoss?
      ensures kind == 0 ==> (r.value.probabilities.PseudoProbability? <==> !classifier.probabilityCapable)
      ensures kind == 0 && r.value.probabilities.Native? ==> r.value.probabilities.classifier == classifier
      ensures kind == 0 && r.value.probabilities.PseudoProbability? ==>
                r.value.probabilities.wrapped == classifier && r.value.probabilities.adapterClasses == classes
      // selector 1: SVM distance over the same classifier, or an error naming that strategy
      ensures kind == 1 && r.Success? ==> r.value == SvmDistance(classes, classifier)
      ensures kind == 1 && r.Failure? ==> r.error.message == NotSvmMessage()
      // selector 2: attribute average, independent of the classifier
      ensures kind == 2 ==> r == Success(AttributeAverage(classes))
      // anything else is an unknown selector
      ensures kind != 0 && kind != 1 && kind != 2 ==> r == Failure(UnsupportedOperation(UnknownTypeMessage))
    {
      if kind == 0 then
        var probabilities :=
          if !classifier.probabilityCapable then PseudoProbability(classifier, classes)
          else Native(classifier);
        Success(HingeLoss(classes, probabilities))
      else if kind == 1 then
        if classifier.svmCapable then Success(SvmDistance(classes, classifier))
        else Failure(UnsupportedOperation(NotSvmMessage()))
      else if kind == 2 then
        Success(AttributeAverage(classes))
      else
        Failure(UnsupportedOperation(UnknownTypeMessage))
    }
  }

  /** The singleton accessor: every call yields the same factory. */
  function GetInstance(): (f: Factory)
    ensures f == TheFactory
  {
    TheFactory
  }

  /** The error message for selector 1 names the second strategy of the enumeration. */
  lemma NotSvmMessageNamesStrategy(classes: seq<Label>, classifier: Classifier)
    requires !classifier.svmCapable
    ensures var r := GetInstance().CreateNonconformityFunction(1, classes, classifier);
            var names := GetInstance().NonconformityFunctions();
            var m := r.error.message;
            r.Failure? && m[|m| - |names[1]| - 1..|m| - 1] == names[1]
  {
  }
}
