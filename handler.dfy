/** The `/` request handler: from the request, the loaded model and the
    outcomes of the library calls it would make, the page it renders
    (label, score, error) and the calls it actually makes, in order. */
module Handler {
  import opened Runtime
  import opened PyText

  datatype HttpMethod = GET | POST

  /** A request to `/`; `form` holds the first value of each form field. */
  datatype Request = Request(verb: HttpMethod, form: map<string, string>)

  const EmptyTextError: string := "Please enter some text to classify."
  const ModelMissingError: string := "Model not available on server."
  const VectorizationErrorPrefix: string := "Vectorization error: "
  const PredictionErrorPrefix: string := "Prediction error: "

  const BullyingLabel: string := "Bullying"
  const NonBullyingLabel: string := "Non-bullying"

  /** Where a displayed score came from; its floating-point value is not modelled. */
  datatype ScoreSource = ClassProbability | DecisionMargin

  /** The three template variables of the rendered page. */
  datatype Page = Page(labelText: Option<string>, score: Option<ScoreSource>, error: Option<string>)

  /** What each library call of one request does if it is made:
      vectorizer.transform([text]), whose result X may be None;
      model.predict(X)[0] together with int(pred);
      predict_proba(X)[0] indexed by the class together with float(); and
      decision_function(X) mapped through 1 / (1 + |df[0]|) together with float(). */
  datatype Library = Library(transform: Call<PyValue>, predict: Call<int>, predictProba: Call<()>, decisionFunction: Call<()>)

  /** A library call the handler makes; Transform records the text it is given. */
  datatype LibraryCall = Transform(text: string) | Predict | PredictProba | DecisionFunction

  /** request.form.get("text", ""): the submitted text, or "" when the field
      is absent. */
  function FormText(form: map<string, string>): (text: string)
    ensures "text" in form ==> text == form["text"]
    ensures "text" !in form ==> text == ""
  {
    if "text" in form then form["text"] else ""
  }

  /** The label for a predicted class: "Bullying" exactly for class 1. */
  function LabelFor(pred: int): (name: string)
    ensures name == BullyingLabel <==> pred == 1
    ensures name == NonBullyingLabel <==> pred != 1
  {
    if pred == 1 then BullyingLabel else NonBullyingLabel
  }

  /** Which score the model can give, by priority: class probabilities, then
      the decision function, then none. */
  function ScoreSourceOf(model: PyValue): (s: Option<ScoreSource>)
    ensures s == Some(ClassProbability) <==> HasAttr(model, "predict_proba")
    ensures s == Some(DecisionMargin) <==> !HasAttr(model, "predict_proba") && HasAttr(model, "decision_function")
    ensures s == None <==> !HasAttr(model, "predict_proba") && !HasAttr(model, "decision_function")
  {
    if HasAttr(model, "predict_proba") then Some(ClassProbability)
    else if HasAttr(model, "decision_function") then Some(DecisionMargin)
    else None
  }

  /** The library call that computes a score of the given source. */
  function ScoreCall(s: ScoreSource): LibraryCall
  {
    if s == ClassProbability then PredictProba else DecisionFunction
  }

  /** The outcome of that call. */
  function ScoreOutcome(lib: Library, s: ScoreSource): Call<()>
  {
    if s == ClassProbability then lib.predictProba else lib.decisionFunction
  }

  /** The transform returned features: it neither raised nor returned None
      (the `X is not None` test). */
  predicate Vectorized(lib: Library)
  {
    lib.transform.Returns? && lib.transform.value != PyNone
  }

  /** The steps of index() once the model is present and the text has been
      vectorized: predict, set the label, then try the score by priority.
      `label` is assigned before the score is computed, so a failing score
      call leaves it in place beside the error. */
  method PredictAndScore(model: PyValue, lib: Library) returns (page: Page, calls: seq<LibraryCall>)
    requires model != PyNone
    ensures |calls| >= 1 && calls[0] == Predict
    ensures lib.predict.Raises? ==>
              page == Page(None, None, Some(PredictionErrorPrefix + lib.predict.message)) && calls == [Predict]
    ensures lib.predict.Returns? && ScoreSourceOf(model) == None ==>
              page == Page(Some(LabelFor(lib.predict.value)), None, None) && calls == [Predict]
    ensures lib.predict.Returns? && ScoreSourceOf(model).Some? ==>
              var s := ScoreSourceOf(model).value;
              && calls == [Predict, ScoreCall(s)]
              && page.labelText == Some(LabelFor(lib.predict.value))
              && (ScoreOutcome(lib, s).Returns? ==> page.score == Some(s) && page.error == None)
              && (ScoreOutcome(lib, s).Raises? ==>
                    page.score == None && page.error == Some(PredictionErrorPrefix + ScoreOutcome(lib, s).message))
    ensures page.labelText.Some? || page.error.Some?
    ensures page.score.Some? ==> page.labelText.Some? && page.error.None?
    ensures page.labelText.Some? <==> lib.predict.Returns?
  {
    var labelText: Option<string> := None;
    var score: Option<ScoreSource> := None;
    var error: Option<string> := None;
    calls := [Predict];
    match lib.predict {
      case Raises(e) =>
        error := Some(PredictionErrorPrefix + e);
      case Returns(pred) =>
        labelText := Some(LabelFor(pred));
        if HasAttr(model, "predict_proba") {
          calls := calls + [PredictProba];
          match lib.predictProba {
            case Returns(_) => score := Some(ClassProbability);
            case Raises(e) => error := Some(PredictionErrorPrefix + e);
          }
        } else if HasAttr(model, "decision_function") {
          calls := calls + [DecisionFunction];
          match lib.decisionFunction {
            case Returns(_) => score := Some(DecisionMargin);
            case Raises(e) => error := Some(PredictionErrorPrefix + e);
          }
        } else {
          score := None;
        }
    }
    page := Page(labelText, score, error);
  }

  /** The steps of index() for a non-blank text: vectorize it, go on only
      when the result X is not None, check that a model is loaded, then
      predict and score. */
  method ClassifyText(text: string, model: PyValue, lib: Library) returns (page: Page, calls: seq<LibraryCall>)
    ensures |calls| >= 1 && calls[0] == Transform(text)
    // A failing transform: only the vectorization error, and the model is never consulted.
    ensures lib.transform.Raises? ==>
              page == Page(None, None, Some(VectorizationErrorPrefix + lib.transform.message)) && |calls| == 1
    // A transform that returns None: nothing at all is shown, and the model is never consulted.
    ensures lib.transform == Returns(PyNone) ==> page == Page(None, None, None) && |calls| == 1
    ensures Vectorized(lib) && model == PyNone ==>
              page == Page(None, None, Some(ModelMissingError)) && |calls| == 1
    // With a model, predict is called next.
    ensures Vectorized(lib) && model != PyNone ==> |calls| >= 2 && calls[1] == Predict
    ensures Vectorized(lib) && model != PyNone && lib.predict.Raises? ==>
              page == Page(None, None, Some(PredictionErrorPrefix + lib.predict.message)) && |calls| == 2
    // A prediction sets the label; the score follows by priority, and a failing score call keeps the label.
    ensures Vectorized(lib) && model != PyNone && lib.predict.Returns? ==>
              page.labelText == Some(LabelFor(lib.predict.value))
              && (ScoreSourceOf(model) == None ==> page.score == None && page.error == None && |calls| == 2)
              && (ScoreSourceOf(model).Some? ==>
                    var s := ScoreSourceOf(model).value;
                    calls == [Transform(text), Predict, ScoreCall(s)]
                    && (ScoreOutcome(lib, s).Returns? ==> page.score == Some(s) && page.error == None)
                    && (ScoreOutcome(lib, s).Raises? ==>
                          page.score == None && page.error == Some(PredictionErrorPrefix + ScoreOutcome(lib, s).message)))
    ensures (page.labelText.Some? || page.error.Some?) <==> lib.transform != Returns(PyNone)
    ensures page.score.Some? ==> page.labelText.Some? && page.error.None?
    ensures page.labelText.Some? ==> Predict in calls && lib.predict.Returns? && page.labelText == Some(LabelFor(lib.predict.value))
  {
    var labelText: Option<string> := None;
    var score: Option<ScoreSource> := None;
    var error: Option<string> := None;
    var features: PyValue;
    calls := [Transform(text)];
    match lib.transform {
      case Returns(x) =>
        features := x;
      case Raises(e) =>
        features := PyNone;
        error := Some(VectorizationErrorPrefix + e);
    }
    if features != PyNone {
      if model == PyNone {
        error := Some(ModelMissingError);
      } else {
        var predicted, more := PredictAndScore(model, lib);
        labelText, score, error := predicted.labelText, predicted.score, predicted.error;
        calls := calls + more;
      }
    }
    page := Page(labelText, score, error);
  }

  /** index(): the page for a request. A GET renders nothing; a POST whose
      text is blank after stripping shows only the fixed message and calls
      nothing; any other POST classifies the stripped text. */
  method Index(req: Request, model: PyValue, lib: Library) returns (page: Page, calls: seq<LibraryCall>)
    ensures req.verb == GET ==> page == Page(None, None, None) && calls == []
    ensures req.verb == POST && Strip(FormText(req.form)) == [] ==>
              page == Page(None, None, Some(EmptyTextError)) && calls == []
    // A non-blank POST: the stripped text is vectorized, and the outcome follows the decision tree.
    ensures req.verb == POST && Strip(FormText(req.form)) != [] ==>
              |calls| >= 1 && calls[0] == Transform(Strip(FormText(req.form)))
    ensures req.verb == POST && Strip(FormText(req.form)) != [] && lib.transform.Raises? ==>
              page == Page(None, None, Some(VectorizationErrorPrefix + lib.transform.message)) && |calls| == 1
    ensures req.verb == POST && Strip(FormText(req.form)) != [] && lib.transform == Returns(PyNone) ==>
              page == Page(None, None, None) && |calls| == 1
    ensures req.verb == POST && Strip(FormText(req.form)) != [] && Vectorized(lib) && model == PyNone ==>
              page == Page(None, None, Some(ModelMissingError)) && |calls| == 1
    ensures req.verb == POST && Strip(FormText(req.form)) != [] && Vectorized(lib) && model != PyNone ==>
              |calls| >= 2 && calls[1] == Predict
    ensures req.verb == POST && Strip(FormText(req.form)) != [] && Vectorized(lib) && model != PyNone
            && lib.predict.Raises? ==>
              page == Page(None, None, Some(PredictionErrorPrefix + lib.predict.message)) && |calls| == 2
    ensures req.verb == POST && Strip(FormText(req.form)) != [] && Vectorized(lib) && model != PyNone
            && lib.predict.Returns? ==>
              page.labelText == Some(LabelFor(lib.predict.value))
    ensures req.verb == POST && Strip(FormText(req.form)) != [] && Vectorized(lib) && model != PyNone
            && lib.predict.Returns? && ScoreSourceOf(model) == None ==>
              page.score == None && page.error == None && |calls| == 2
    ensures req.verb == POST && Strip(FormText(req.form)) != [] && Vectorized(lib) && model != PyNone
            && lib.predict.Returns? && ScoreSourceOf(model).Some? ==>
              var s := ScoreSourceOf(model).value;
              && calls == [Transform(Strip(FormText(req.form))), Predict, ScoreCall(s)]
              && (ScoreOutcome(lib, s).Returns? ==> page.score == Some(s) && page.error == None)
              && (ScoreOutcome(lib, s).Raises? ==>
                    page.score == None && page.error == Some(PredictionErrorPrefix + ScoreOutcome(lib, s).message))
    // Summary: a POST yields a label or an error unless its transform returned None;
    // a score only comes with a label and no error.
    ensures (page.labelText.Some? || page.error.Some?) <==>
              req.verb == POST && (Strip(FormText(req.form)) == [] || lib.transform != Returns(PyNone))
    ensures page.score.Some? ==> page.labelText.Some? && page.error.None?
    ensures page.labelText.Some? ==> Predict in calls && lib.predict.Returns? && page.labelText == Some(LabelFor(lib.predict.value))
    ensures page.error.Some? && page.labelText.Some? ==> |calls| == 3
  {
    page, calls := Page(None, None, None), [];
    if req.verb == POST {
      var text := Strip(FormText(req.form));
      if text == [] {
        page := Page(None, None, Some(EmptyTextError));
      } else {
        page, calls := ClassifyText(text, model, lib);
      }
    }
  }
}
