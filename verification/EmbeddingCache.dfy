/** Batch embedding through a cache.  The cache key is a hash of the model and the text and is
    treated as injective, so the text stands for its key. */
module EmbeddingCache {
  import opened Wrappers

  type Vector = seq<real>

  datatype EmbeddingError = EmptyBatch | BatchTooLarge | RequestFailed | MissingEmbedding(index: nat)

  /** The service's answer to one request: None when the request fails. */
  type Response = Option<seq<Vector>>

  /** The service maps each text to a fixed vector, in request order; it may fail, and it may
      return too few vectors. */
  ghost predicate Faithful(f: string -> Vector, request: seq<string>, response: Response) {
    response.Some? ==> forall j :: 0 <= j < |response.value| && j < |request| ==> response.value[j] == f(request[j])
  }

  /** The map holds nothing but the service's own vectors. */
  ghost predicate SoundMap(f: string -> Vector, m: map<string, Vector>) {
    forall t :: t in m ==> m[t] == f(t)
  }

  class EmbeddingService {
    const enableCache: bool
    const maxBatchSize: nat
    var cache: map<string, Vector>

    constructor (enableCache: bool, maxBatchSize: nat)
      ensures this.enableCache == enableCache && this.maxBatchSize == maxBatchSize && cache == map[]
      ensures forall f :: Sound(f)
    {
      this.enableCache, this.maxBatchSize := enableCache, maxBatchSize;
      cache := map[];
    }

    /** The cache never holds anything but the service's own vectors. */
    ghost predicate Sound(f: string -> Vector)
      reads this
    {
      SoundMap(f, cache)
    }

    /** `respond` is the service, asked only when the text is not cached.  `meanwhile` is the cache
        as other calls have left it by the time the service answers. */
    method Embed(text: string, respond: seq<string> -> Response, meanwhile: map<string, Vector>,
                 ghost f: string -> Vector)
      returns (r: Result<Vector, EmbeddingError>)
      requires Sound(f) && forall request :: Faithful(f, request, respond(request))
      requires SoundMap(f, meanwhile)
      modifies this
      ensures Sound(f)
      ensures r.Ok? ==> r.value == f(text)
      ensures r.Ok? <==>
        (enableCache && text in old(cache)) || (respond([text]).Some? && |respond([text]).value| > 0)
      ensures enableCache && text in old(cache) ==> cache == old(cache)
      ensures !(enableCache && text in old(cache)) ==>
        cache == if enableCache && r.Ok? then meanwhile[text := f(text)] else meanwhile
    {
      if enableCache {
        if text in cache {
          return Ok(cache[text]);
        }
      }
      var response := respond([text]);
      cache := meanwhile;
      assert Faithful(f, [text], response);
      if response.None? { return Err(RequestFailed); }
      if |response.value| == 0 { return Err(MissingEmbedding(0)); }
      var embedding := response.value[0];
      if enableCache {
        cache := cache[text := embedding];
      }
      r := Ok(embedding);
    }

    /** First loop of embedBatch: what is cached, and where and what the uncached texts are. */
    method LookUpAll(texts: seq<string>)
      returns (cached: seq<Option<Vector>>, uncachedIndices: seq<nat>, uncachedTexts: seq<string>)
      ensures |cached| == if enableCache then |texts| else 0
      ensures enableCache ==> forall i :: 0 <= i < |texts| ==> cached[i] == Lookup(cache, texts[i])
      ensures Asked(texts, if enableCache then cache else map[], uncachedIndices, uncachedTexts, |texts|)
    {
      cached, uncachedIndices, uncachedTexts := [], [], [];
      if enableCache {
        for i := 0 to |texts|
          invariant |cached| == i
          invariant forall j :: 0 <= j < i ==> cached[j] == Lookup(cache, texts[j])
          invariant Asked(texts, cache, uncachedIndices, uncachedTexts, i)
        {
          AskedStep(texts, cache, uncachedIndices, uncachedTexts, i);
          if texts[i] in cache {
            cached := cached + [Some(cache[texts[i]])];
          } else {
            cached := cached + [None];
            uncachedIndices := uncachedIndices + [i];
            uncachedTexts := uncachedTexts + [texts[i]];
          }
        }
      } else {
        uncachedIndices := seq(|texts|, i => i);
        uncachedTexts := texts;
        AskForAll(texts, uncachedIndices);
      }
    }

    /** The cache is consulted before the request is sent and filled after it is answered; in
        between other calls may have changed it to `meanwhile`. */
    method EmbedBatch(texts: seq<string>, respond: seq<string> -> Response, meanwhile: map<string, Vector>,
                      ghost f: string -> Vector)
      returns (r: Result<seq<Vector>, EmbeddingError>)
      requires Sound(f) && forall request :: Faithful(f, request, respond(request))
      requires SoundMap(f, meanwhile)
      modifies this
      ensures Sound(f)
      ensures texts == [] ==> r == Err(EmptyBatch) && cache == old(cache)
      ensures texts != [] && |texts| > maxBatchSize ==> r == Err(BatchTooLarge) && cache == old(cache)
      ensures r.Ok? ==> |r.value| == |texts| && forall i :: 0 <= i < |texts| ==> r.value[i] == f(texts[i])
      ensures var missing := Uncached(texts, if enableCache then old(cache) else map[]);
        texts != [] && |texts| <= maxBatchSize ==>
          && (r.Ok? <==> missing == [] || (respond(missing).Some? && |respond(missing).value| >= |missing|))
          && (missing == [] ==> cache == old(cache))
          && (missing != [] ==>
                && (forall t :: t in meanwhile ==> t in cache)
                && (forall t :: t in cache ==> t in meanwhile || t in missing)
                && (r.Ok? && enableCache ==> forall t :: t in missing ==> t in cache)
                && (!enableCache ==> cache == meanwhile))
    {
      if |texts| == 0 { return Err(EmptyBatch); }
      if |texts| > maxBatchSize { return Err(BatchTooLarge); }
      var cached, uncachedIndices, uncachedTexts := LookUpAll(texts);
      ghost var known := if enableCache then cache else map[];
      AskedIsUncached(texts, known, uncachedIndices, uncachedTexts);
      if |uncachedTexts| == 0 {
        AllCached(texts, known, uncachedIndices, uncachedTexts);
        r := Ok(seq(|texts|, i requires 0 <= i < |texts| && i < |cached| && cached[i].Some? => cached[i].value));
        return;
      }
      var response := respond(uncachedTexts);
      assert Faithful(f, uncachedTexts, response);
      cache := meanwhile;
      if response.None? { return Err(RequestFailed); }
      r := Merge(texts, cached, uncachedIndices, uncachedTexts, response.value, known, f);
    }

    /** Second loop: cached vectors where there were some, the service's answers elsewhere.  `known`
        is the cache as it was looked up. */
    method Merge(texts: seq<string>, cached: seq<Option<Vector>>, uncachedIndices: seq<nat>,
                 ghost uncachedTexts: seq<string>, answers: seq<Vector>, ghost known: map<string, Vector>,
                 ghost f: string -> Vector)
      returns (r: Result<seq<Vector>, EmbeddingError>)
      requires Sound(f) && SoundMap(f, known) && Faithful(f, uncachedTexts, Some(answers))
      requires |cached| == if enableCache then |texts| else 0
      requires enableCache ==> forall i :: 0 <= i < |texts| ==> cached[i] == Lookup(known, texts[i])
      requires !enableCache ==> known == map[]
      requires Asked(texts, known, uncachedIndices, uncachedTexts, |texts|)
      modifies this
      ensures Sound(f)
      ensures r.Ok? <==> |answers| >= |uncachedTexts|
      ensures r.Err? ==> |answers| < |uncachedIndices| && r == Err(MissingEmbedding(uncachedIndices[|answers|]))
      ensures r.Ok? ==> |r.value| == |texts| && forall i :: 0 <= i < |texts| ==> r.value[i] == f(texts[i])
      ensures r.Ok? && enableCache ==> forall t :: t in uncachedTexts ==> t in cache
      ensures !enableCache ==> cache == old(cache)
      ensures forall t :: t in old(cache) ==> t in cache
      ensures forall t :: t in cache ==> t in old(cache) || t in uncachedTexts
    {
      hide Uncached;
      var final: seq<Vector> := [];
      for i := 0 to |texts|
        invariant Sound(f) && |final| == i
        invariant forall j :: 0 <= j < i ==> final[j] == f(texts[j])
        invariant !enableCache ==> cache == old(cache)
        invariant enableCache ==> forall j :: 0 <= j < i && texts[j] !in known ==> texts[j] in cache
        invariant forall t :: t in old(cache) ==> t in cache
        invariant forall t :: t in cache ==> t in old(cache) || t in uncachedTexts
        invariant AnsweredBelow(uncachedIndices, i, |answers|)
      {
        if i < |cached| && cached[i].Some? {
          final := final + [cached[i].value];
        } else {
          assert texts[i] !in known;
          var at := IndexOf(uncachedIndices, i);
          assert uncachedTexts[at] == texts[i];
          if at >= |answers| {
            FirstUnanswered(uncachedIndices, at, |answers|);
            return Err(MissingEmbedding(i));
          }
          assert answers[at] == f(texts[i]);
          final := final + [answers[at]];
          if enableCache {
            cache := cache[texts[i] := answers[at]];
          }
        }
      }
      if |uncachedTexts| > 0 {
        assert uncachedIndices[|uncachedTexts| - 1] < |texts|;
      }
      r := Ok(final);
    }

    method ClearCache()
      modifies this
      ensures cache == map[] && forall f :: Sound(f)
    {
      cache := map[];
    }
  }

  /** `indices.indexOf(i)` for an index that occurs. */
  method IndexOf(indices: seq<nat>, i: nat) returns (at: nat)
    requires i in indices
    ensures at < |indices| && indices[at] == i && forall j :: 0 <= j < at ==> indices[j] != i
  {
    at := 0;
    while indices[at] != i
      invariant 0 <= at < |indices|
      invariant i in indices[at..]
      invariant forall j :: 0 <= j < at ==> indices[j] != i
      decreases |indices| - at
    {
      assert indices[at..][0] == indices[at];
      assert indices[at..][1..] == indices[at + 1..];
      at := at + 1;
    }
  }

  /** The texts not known to the cache, in order, with repetitions. */
  function Uncached(texts: seq<string>, known: map<string, Vector>): seq<string>
    decreases |texts|
  {
    if texts == [] then []
    else
      var last := texts[|texts| - 1];
      Uncached(texts[..|texts| - 1], known) + (if last in known then [] else [last])
  }

  lemma {:induction false} NothingKnown(texts: seq<string>)
    ensures Uncached(texts, map[]) == texts
    decreases |texts|
  {
    if texts != [] {
      NothingKnown(texts[..|texts| - 1]);
    }
  }

  /** The positions below `i` have got their answers. */
  ghost predicate AnsweredBelow(indices: seq<nat>, i: nat, answers: nat) {
    forall j :: 0 <= j < |indices| && indices[j] < i ==> j < answers
  }

  lemma FirstUnanswered(indices: seq<nat>, at: nat, answers: nat)
    requires forall j, k :: 0 <= j < k < |indices| ==> indices[j] < indices[k]
    requires at < |indices| && answers <= at && AnsweredBelow(indices, indices[at], answers)
    ensures at == answers
  {
    assert at > 0 ==> indices[at - 1] < indices[at];
  }

  lemma AskForAll(texts: seq<string>, indices: seq<nat>)
    requires |indices| == |texts| && forall i :: 0 <= i < |texts| ==> indices[i] == i
    ensures Asked(texts, map[], indices, texts, |texts|)
  {
    NothingKnown(texts);
    assert texts[..|texts|] == texts;
    forall i | 0 <= i < |texts| ensures i in indices {
      assert indices[i] == i;
    }
  }

  lemma AskedStep(texts: seq<string>, known: map<string, Vector>, indices: seq<nat>, asked: seq<string>, i: nat)
    requires Asked(texts, known, indices, asked, i) && i < |texts|
    ensures if texts[i] in known then Asked(texts, known, indices, asked, i + 1)
            else Asked(texts, known, indices + [i], asked + [texts[i]], i + 1)
  {
    assert texts[..i + 1][..i] == texts[..i];
    var more := indices + [i];
    forall j | 0 <= j < |more| ensures more[j] <= i {
      if j < |indices| { assert more[j] == indices[j]; }
    }
  }

  /** `indices` are the positions below `n` of unknown texts, and `asked` those texts. */
  ghost predicate Asked(texts: seq<string>, known: map<string, Vector>, indices: seq<nat>, asked: seq<string>, n: nat) {
    && n <= |texts| && |indices| == |asked|
    && (forall j :: 0 <= j < |indices| ==>
          indices[j] < n && texts[indices[j]] !in known && asked[j] == texts[indices[j]])
    && (forall j, k :: 0 <= j < k < |indices| ==> indices[j] < indices[k])
    && (forall i :: 0 <= i < n && texts[i] !in known ==> i in indices)
    && asked == Uncached(texts[..n], known)
  }

  lemma AskedIsUncached(texts: seq<string>, known: map<string, Vector>, indices: seq<nat>, asked: seq<string>)
    requires Asked(texts, known, indices, asked, |texts|)
    ensures asked == Uncached(texts, known)
  {
    assert texts[..|texts|] == texts;
  }

  lemma AllCached(texts: seq<string>, known: map<string, Vector>, indices: seq<nat>, asked: seq<string>)
    requires Asked(texts, known, indices, asked, |texts|) && asked == []
    ensures forall i :: 0 <= i < |texts| ==> texts[i] in known
  {
  }
}
