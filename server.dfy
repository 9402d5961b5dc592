/** Application start-up and the `/health` endpoint. */
module Server {
  import opened Runtime
  import opened Loader

  /** The artifacts loaded once by create_app and shared by every request. */
  datatype Artifacts = Artifacts(stopWords: Option<seq<string>>, vectorizer: Vectorizer, model: PyValue)

  /** create_app: loads the stop words, then the vectorizer (built with those
      stop words), then the model. */
  method CreateApp(fs: FileSystem) returns (app: Artifacts)
    ensures app.stopWords == LoadStopwords(fs, StopwordsPath)
    ensures app.vectorizer == SelectVectorizer(app.stopWords, ProbeAll(fs, TfidfCandidates))
    ensures !IsNoneVectorizer(app.vectorizer)
    ensures app.model == LoadModel(fs, ModelPath)
  {
    var stopWords := LoadStopwords(fs, StopwordsPath);
    var vectorizer := LoadVectorizer(stopWords, fs);
    SelectNeverNone(stopWords, ProbeAll(fs, TfidfCandidates));
    var model := LoadModel(fs, ModelPath);
    app := Artifacts(stopWords, vectorizer, model);
  }

  const HealthOk: int := 200
  const HealthUnavailable: int := 503

  /** health(): a status entry for each artifact, and 200 exactly when both
      artifacts are present, 503 otherwise. */
  method Health(app: Artifacts) returns (details: map<string, string>, status: int)
    ensures details.Keys == {"model", "vectorizer"}
    ensures details["model"] == "loaded" <==> app.model != PyNone
    ensures details["model"] == "missing" <==> app.model == PyNone
    ensures details["vectorizer"] == "loaded" <==> !IsNoneVectorizer(app.vectorizer)
    ensures details["vectorizer"] == "missing" <==> IsNoneVectorizer(app.vectorizer)
    ensures status == HealthOk <==> app.model != PyNone && !IsNoneVectorizer(app.vectorizer)
    ensures status == HealthOk || status == HealthUnavailable
    ensures status == HealthOk <==> details["model"] == "loaded" && details["vectorizer"] == "loaded"
  {
    var ok := true;
    details := map[];
    if app.model == PyNone {
      ok := false;
      details := details["model" := "missing"];
    } else {
      details := details["model" := "loaded"];
    }
    if IsNoneVectorizer(app.vectorizer) {
      ok := false;
      details := details["vectorizer" := "missing"];
    } else {
      details := details["vectorizer" := "loaded"];
    }
    status := if ok then HealthOk else HealthUnavailable;
  }

  /** After start-up the vectorizer is always reported as loaded, so the
      health status depends on the model file alone. */
  method HealthAfterStartup(fs: FileSystem) returns (details: map<string, string>, status: int)
    ensures details.Keys == {"model", "vectorizer"} && details["vectorizer"] == "loaded"
    ensures status == HealthOk <==> LoadModel(fs, ModelPath) != PyNone
    ensures ModelPath !in fs ==> status == HealthUnavailable && details["model"] == "missing"
  {
    var app := CreateApp(fs);
    details, status := Health(app);
  }
}
