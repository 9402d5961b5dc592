/** Start-up loading of the artifacts: the stopword list, the TF-IDF
    vectorizer (a first-match search over fixed candidate files with a
    fallback) and the classifier (one file, None on failure). */
module Loader {
  import opened Runtime

  const StopwordsPath: string := "stopwords.txt"
  const ModelPath: string := "LinearSVCTuned.pkl"

  /** The vectorizer files, in the order they are tried. */
  const TfidfCandidates: seq<string> := ["tfidfmodel.pkl", "tfidfvectorizer.pkl", "tfidfvectoizer.pkl"]

  /** load_stopwords: the file's lines when it exists, None otherwise. */
  function LoadStopwords(fs: FileSystem, path: string): (r: Option<seq<string>>)
    ensures r.None? <==> path !in fs
    ensures r.Some? ==> r.value == fs[path].lines
  {
    if path in fs then Some(fs[path].lines) else None
  }

  /** The vectorizer the application ends up with: an unpickled object used
      as it is, or a TfidfVectorizer constructed here with the given stop
      words, `lowercase` and, when built from a dict, that dict as its
      vocabulary. */
  datatype Vectorizer =
    | Unpickled(obj: PyValue)
    | Tfidf(stopWords: Option<seq<string>>, lowercase: bool, vocabulary: Option<PyValue>)

  /** What trying one candidate file comes to. */
  datatype CandidateOutcome =
    | Missing
    | UnpickleFails(message: string)
    | FittedVectorizer(obj: PyValue)
    | VocabularyDict(obj: PyValue)
    | OtherObject(obj: PyValue)

  /** Tries one candidate: existence, unpickling, then the two shape tests in
      the order the loader applies them. */
  function Probe(fs: FileSystem, path: string): (o: CandidateOutcome)
    ensures o.Missing? <==> path !in fs
    ensures o.UnpickleFails? <==> path in fs && fs[path].unpickled.Raises?
    ensures !o.Missing? && !o.UnpickleFails? ==>
              path in fs && fs[path].unpickled.Returns? &&
              var obj := fs[path].unpickled.value;
              && (o.FittedVectorizer? <==> HasAttr(obj, "transform") && HasAttr(obj, "vocabulary_"))
              && (o.VocabularyDict? <==> !o.FittedVectorizer? && IsDict(obj))
              && o.obj == obj
  {
    if path !in fs then Missing
    else match fs[path].unpickled
      case Raises(m) => UnpickleFails(m)
      case Returns(obj) =>
        if HasAttr(obj, "transform") && HasAttr(obj, "vocabulary_") then FittedVectorizer(obj)
        else if IsDict(obj) then VocabularyDict(obj)
        else OtherObject(obj)
  }

  /** The outcomes of trying each of `paths`, one per path, in order. */
  function ProbeAll(fs: FileSystem, paths: seq<string>): (r: seq<CandidateOutcome>)
    ensures |r| == |paths| && forall k :: 0 <= k < |r| ==> r[k] == Probe(fs, paths[k])
    ensures Shaped(r)
  {
    seq(|paths|, i requires 0 <= i < |paths| => Probe(fs, paths[i]))
  }

  /** Every fitted vectorizer among `outcomes` has the two attributes the
      loader tests for, as Probe guarantees. */
  predicate Shaped(outcomes: seq<CandidateOutcome>)
  {
    forall k :: 0 <= k < |outcomes| && outcomes[k].FittedVectorizer? ==>
      HasAttr(outcomes[k].obj, "transform") && HasAttr(outcomes[k].obj, "vocabulary_")
  }

  /** A candidate that ends the search. */
  predicate Usable(o: CandidateOutcome)
  {
    o.FittedVectorizer? || o.VocabularyDict?
  }

  /** The vectorizer a usable candidate yields. */
  function Adopt(stopWords: Option<seq<string>>, o: CandidateOutcome): Vectorizer
    requires Usable(o)
  {
    if o.FittedVectorizer? then Unpickled(o.obj) else Tfidf(stopWords, true, Some(o.obj))
  }

  /** The fresh, unfitted vectorizer used when no candidate qualifies. */
  function Fallback(stopWords: Option<seq<string>>): Vectorizer
  {
    Tfidf(stopWords, true, None)
  }

  /** Python's `vectorizer is None`. */
  predicate IsNoneVectorizer(v: Vectorizer)
  {
    v == Unpickled(PyNone)
  }

  /** The result of the candidate search over `outcomes`: either one of the
      unpickled objects, or a vectorizer built here, which always carries the
      given stop words and lowercase=True. */
  function SelectVectorizer(stopWords: Option<seq<string>>, outcomes: seq<CandidateOutcome>): (v: Vectorizer)
    ensures v.Unpickled? ==> exists k :: 0 <= k < |outcomes| && outcomes[k] == FittedVectorizer(v.obj)
    ensures v.Tfidf? ==> v.stopWords == stopWords && v.lowercase
  {
    if outcomes == [] then Fallback(stopWords)
    else if Usable(outcomes[0]) then Adopt(stopWords, outcomes[0])
    else SelectVectorizer(stopWords, outcomes[1..])
  }

  /** The search never yields None: an object used as it is has both
      `transform` and `vocabulary_`, which None has not. It follows from the
      contract of SelectVectorizer together with Shaped. */
  lemma SelectNeverNone(stopWords: Option<seq<string>>, outcomes: seq<CandidateOutcome>)
    requires Shaped(outcomes)
    ensures !IsNoneVectorizer(SelectVectorizer(stopWords, outcomes))
    ensures var v := SelectVectorizer(stopWords, outcomes);
            v.Unpickled? ==> HasAttr(v.obj, "transform") && HasAttr(v.obj, "vocabulary_")
  {
  }

  /** First match: the first usable candidate decides the result, whatever
      came before it (missing, unreadable or of another shape). */
  lemma {:induction false} SelectFirstMatch(stopWords: Option<seq<string>>, outcomes: seq<CandidateOutcome>, k: nat)
    requires k < |outcomes| && Usable(outcomes[k])
    requires forall j :: 0 <= j < k ==> !Usable(outcomes[j])
    ensures SelectVectorizer(stopWords, outcomes) == Adopt(stopWords, outcomes[k])
  {
    if k > 0 {
      assert !Usable(outcomes[0]);
      SelectFirstMatch(stopWords, outcomes[1..], k - 1);
    }
  }

  /** The fallback is returned exactly when no candidate is usable. */
  lemma {:induction false} SelectFallback(stopWords: Option<seq<string>>, outcomes: seq<CandidateOutcome>)
    ensures SelectVectorizer(stopWords, outcomes) == Fallback(stopWords)
            <==> forall k :: 0 <= k < |outcomes| ==> !Usable(outcomes[k])
  {
    if outcomes != [] && !Usable(outcomes[0]) {
      SelectFallback(stopWords, outcomes[1..]);
      assert forall k :: 1 <= k < |outcomes| ==> outcomes[k] == outcomes[1..][k - 1];
    }
  }

  /** Once a usable candidate has been seen, the candidates after it are
      never consulted. */
  lemma {:induction false} SelectIgnoresLater(stopWords: Option<seq<string>>, outcomes: seq<CandidateOutcome>, later: seq<CandidateOutcome>, k: nat)
    requires k < |outcomes| && Usable(outcomes[k])
    ensures SelectVectorizer(stopWords, outcomes + later) == SelectVectorizer(stopWords, outcomes)
  {
    if !Usable(outcomes[0]) {
      assert (outcomes + later)[1..] == outcomes[1..] + later;
      SelectIgnoresLater(stopWords, outcomes[1..], later, k - 1);
    }
  }

  /** load_vectorizer: tries each of TfidfCandidates in order, returning at
      the first fitted vectorizer or vocabulary dict and skipping every
      other file; a fresh vectorizer when none qualifies. */
  method LoadVectorizer(stopWords: Option<seq<string>>, fs: FileSystem) returns (v: Vectorizer)
    ensures v == SelectVectorizer(stopWords, ProbeAll(fs, TfidfCandidates))
  {
    ghost var outcomes := ProbeAll(fs, TfidfCandidates);
    for i := 0 to |TfidfCandidates|
      invariant SelectVectorizer(stopWords, outcomes) == SelectVectorizer(stopWords, outcomes[i..])
    {
      var fn := TfidfCandidates[i];
      assert outcomes[i..][0] == Probe(fs, fn) && outcomes[i..][1..] == outcomes[i + 1..];
      if fn in fs {
        match fs[fn].unpickled {
          case Raises(_) =>
          case Returns(obj) =>
            if HasAttr(obj, "transform") && HasAttr(obj, "vocabulary_") {
              return Unpickled(obj);
            }
            if IsDict(obj) {
              return Tfidf(stopWords, true, Some(obj));
            }
        }
      }
    }
    return Fallback(stopWords);
  }

  /** load_model: None when the file is missing or unpickling raises (or the
      pickle holds None itself); otherwise the unpickled object. */
  function LoadModel(fs: FileSystem, path: string): (m: PyValue)
    ensures (path !in fs || fs[path].unpickled.Raises?) ==> m == PyNone
    ensures path in fs && fs[path].unpickled.Returns? ==> m == fs[path].unpickled.value
  {
    if path in fs then
      match fs[path].unpickled
      case Returns(obj) => obj
      case Raises(_) => PyNone
    else PyNone
  }
}
