# Bullying classifier web front-end: decision logic

This project models the decision policy of a small Flask application. The application loads a TF-IDF vectorizer and a linear classifier once, at start-up. It then labels submitted text as "Bullying" or "Non-bullying", with an optional confidence score, and reports its own health. The model covers these parts:

- **Artifact loading** (`Loader`): `load_stopwords`; `load_vectorizer`, a first-match search over the fixed list `tfidfmodel.pkl`, `tfidfvectorizer.pkl`, `tfidfvectoizer.pkl` (the last name's spelling is the source's own), with a fallback to a fresh, unfitted vectorizer; and `load_model`, which returns None on failure.
- **Request handling** (`Handler`): the `/` handler's decision tree. Its inputs are the request, the loaded model and the outcomes of the library calls it might make. Its outputs are the rendered `label`, `score` and `error`, and the library calls it actually made, in order.
- **Start-up and health** (`Server`): `create_app`'s loading sequence and the `/health` endpoint.
- **Python runtime stand-ins** (`Runtime`, `PyText`): Python values as far as `is None`, `hasattr` and `isinstance(_, dict)` distinguish them; a filesystem map in which each file has a text view and an unpickling outcome; library call outcomes (return or raise); and `str.strip()` over Python's `str.isspace()` character set.

Foreign behaviour is abstract throughout. Unpickling is the outcome recorded for each file. `transform`, `predict`/`int(pred)`, `predict_proba` and `decision_function` are the outcomes in a `Library` record. A score is recorded only by its source (class probability or decision margin), not by its floating-point value.

Four behaviours of the code that a reader might not expect:
- When computing the score raises after a prediction succeeded, the page shows the label together with "Prediction error: …". Errors are therefore not always free of a partial result (`Handler.Index`).
- A model file that unpickles to `None` makes `load_model` return None, just like a missing or unreadable file (`Loader.LoadModel`). A pickled `None` among the vectorizer candidates is skipped.
- A `transform` that returns None instead of raising leaves `X` as None. The POST page then shows no label, no score and no error, and the model is not consulted (`Handler.ClassifyText`).
- An object that has `transform` but no `vocabulary_`, such as a pickled unfitted vectorizer, is not used as-is. If it is not a dict, it is skipped like any other object of unexpected shape.

## Model

| member | source | states |
|---|---|---|
| PyText.TrimStart | app.py:64 | the result is the longest suffix of the input that does not start with whitespace; everything dropped is whitespace |
| PyText.TrimEnd | app.py:64 | the result is the longest prefix of the input that does not end with whitespace; everything dropped is whitespace |
| PyText.IsSpace | app.py:64 | the whitespace set of `str.isspace()`: among ASCII characters exactly tab, line feed, vertical tab, form feed, carriage return, 0x1C-0x1F and space; next line and no-break space are included, the zero-width space is not |
| PyText.Strip | app.py:64 | the stripped text is never longer than the input and, when not empty, neither starts nor ends with whitespace |
| PyText.StripSpec | app.py:64 | the stripped text is the slice between the leading and the trailing whitespace; it is empty exactly when the input is all whitespace, and otherwise neither starts nor ends with whitespace |
| Loader.LoadStopwords | app.py:11-15 | None exactly when the file does not exist; otherwise the file's lines |
| Loader.Probe | app.py:20-31 | a candidate is missing iff the file does not exist; it fails iff unpickling raises; it is a fitted vectorizer iff the object has both `transform` and `vocabulary_`; otherwise it is a vocabulary iff the object is a dict, and else it is an object of other shape |
| Loader.ProbeAll | app.py:19-23 | one outcome per candidate, in list order; every fitted vectorizer among them has both tested attributes |
| Loader.SelectVectorizer | app.py:18-35 | an object used as-is is one of the fitted vectorizers found; a vectorizer built here always has the given stop words and lowercase=True |
| Loader.SelectNeverNone | app.py:24-35 | the search never yields None, and an object used as-is has `transform` and `vocabulary_` |
| Loader.SelectFirstMatch | app.py:19-29 | the first candidate that is a fitted vectorizer or a dict decides the result: the object unchanged, or a vectorizer built from the dict with the given stop words and lowercase=True; earlier missing, failing or odd-shaped candidates are skipped |
| Loader.SelectFallback | app.py:33-35 | the fresh unfitted vectorizer with the given stop words is returned iff no candidate qualifies |
| Loader.SelectIgnoresLater | app.py:19-29 | once a qualifying candidate occurs, appending any further candidates does not change the result |
| Loader.LoadVectorizer | app.py:18-35 | the loop over the fixed candidate list, with its early returns and skips, returns exactly the first-match selection over the candidates' outcomes |
| Loader.LoadModel | app.py:38-47 | None when the file is missing or unpickling raises; otherwise exactly the unpickled object |
| Handler.FormText | app.py:64 | the value of the `text` field, or "" when the form has no such field |
| Handler.LabelFor | app.py:80 | "Bullying" iff the predicted class is 1, "Non-bullying" iff it is not |
| Handler.ScoreSourceOf | app.py:82-90 | the score comes from class probabilities iff the model has `predict_proba`; else from the decision function iff it has that; else there is none |
| Handler.PredictAndScore | app.py:78-92 | predict raising: only "Prediction error: " + message; otherwise the label is set first and the score call is chosen by priority; when that call raises, the label stays beside "Prediction error: " + message and there is no score; a label is shown iff predict returned |
| Handler.ClassifyText | app.py:68-92 | the text is vectorized first; transform raising: only "Vectorization error: " + message, and the model is never consulted; transform returning None: no label, score or error, and the model is never consulted; no model: only "Model not available on server."; with a model, predict comes next and the prediction outcomes above follow; there is a label or an error iff the transform did not return None; a score only with a label and no error |
| Handler.Index | app.py:58-94 | GET: no label, score or error and no calls; text blank after stripping: only "Please enter some text to classify." and no transform; otherwise the stripped text is vectorized and the outcome follows the whole decision tree: vectorization error only, empty page when transform returns None, "Model not available on server." only, "Prediction error: " + message only when predict raises, else the label ("Bullying" iff the class is 1) with the score by priority, or with "Prediction error: " + message when the score call raises; a POST yields a label or an error unless its transform returned None; a score only comes with a label and no error |
| Server.CreateApp | app.py:53-55 | stop words are loaded first, the vectorizer is the first-match selection built with them and is never None, and the model is `load_model` of the fixed path |
| Server.Health | app.py:97-112 | the details have exactly the keys `model` and `vectorizer`, each "loaded" iff that artifact is not None and "missing" iff it is; the status is 200 iff both are present, and 503 otherwise |
| Server.HealthAfterStartup | app.py:53-112 | after start-up the vectorizer is always reported "loaded", so the status is 200 iff the model loads; with no model file it is 503 and the model is reported "missing" |

## Left out

- Flask app construction, routing, `render_template`, and the host, port and debug settings of `app.run` are web-framework plumbing. The request is a method plus a map holding the first value of each form field.
- File reading and `pickle.load` are I/O and foreign deserialization. A file is its list of lines plus the outcome of unpickling it. So the exact line splitting of `splitlines()` in `load_stopwords` is not modelled. Neither are its failures: a failing `open` of `stopwords.txt` (a directory, no permission) or a UTF-8 decoding error. Such a failure is not caught, so it would escape `create_app`.
- A pickled dict is kept as the opaque unpickled object. The model records only that it is a dict, and that it is passed unchanged as the vocabulary. Its keys and values are not modelled.
- scikit-learn internals are foreign calls, given as uninterpreted outcomes. This covers what `TfidfVectorizer(...)` builds, and whether `transform` succeeds, including that an unfitted vectorizer fails at transform time. It also covers the values of `predict`, `predict_proba` and `decision_function`.
- Handler.Index: the score values `float(prob[int(pred)])` and `1 / (1 + abs(df[0]))` are floating point. Only the chosen source is recorded, so the range of each score is not stated.
- `hasattr` is modelled as a test of attribute names. An attribute getter that raises something other than AttributeError is not modelled.
- Console warnings printed by the loaders are logging only.
