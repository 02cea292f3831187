/** `OllamaClient`: the model list of an Ollama server and the generate request. The HTTP exchange is
    a parameter: the server is a function from the request to the `response` field of its answer. */
module OllamaClient {
  import opened Wrappers
  import opened Strings

  const LATEST_TAG: string := ":latest"
  const TAGS_PATH: string := "/api/tags"
  const GENERATE_PATH: string := "/api/generate"

  /** A model name as the settings list it: the first `:latest` removed, if any. */
  function NormaliseName(name: string): (normalised: string)
    ensures !Contains(name, LATEST_TAG) ==> normalised == name
    ensures Contains(name, LATEST_TAG) ==> |normalised| == |name| - |LATEST_TAG|
  {
    ReplaceFirst(name, LATEST_TAG, "")
  }

  /** Removing the tag cuts exactly the first `:latest` out of the name and keeps everything else. */
  lemma NormaliseLatestTag(base: string, rest: string)
    requires !Contains(base, LATEST_TAG)
    ensures NormaliseName(base + LATEST_TAG + rest) == base + rest
  {
    ReplaceFirstAfterClean(base, LATEST_TAG, rest, "");
    assert base + "" + rest == base + rest;
  }

  /** Only the first tag goes: `m:latest:latest` lists as `m:latest`. */
  lemma NormaliseOnlyFirstTag()
    ensures NormaliseName("m:latest:latest") == "m:latest"
  {
    assert !Contains("m", LATEST_TAG);
    assert "m:latest:latest" == "m" + LATEST_TAG + LATEST_TAG;
    NormaliseLatestTag("m", LATEST_TAG);
  }

  /** The names the dictionary lists for the given model names. */
  ghost function ListedNames(names: seq<string>): set<string> {
    set i | 0 <= i < |names| :: NormaliseName(names[i])
  }

  /** `getModels`, after the tags request: `models` is the `models` field of the answer (None when it
      is absent). An absent or empty list is a rejection; otherwise each name, normalised, maps to
      itself. */
  method GetModels(models: Option<seq<string>>) returns (r: Option<map<string, string>>)
    ensures r.None? <==> models.None? || |models.value| == 0
    ensures r.Some? ==> r.value.Keys == ListedNames(models.value)
    ensures r.Some? ==> forall name :: name in r.value ==> r.value[name] == name
  {
    if models.None? || |models.value| == 0 {
      return None;
    }
    var names := models.value;
    var acc: map<string, string> := map[];
    var i := 0;
    while i < |names|
      invariant 0 <= i <= |names|
      invariant acc.Keys == ListedNames(names[..i])
      invariant forall name :: name in acc ==> acc[name] == name
    {
      var name := NormaliseName(names[i]);
      acc := acc[name := name];
      assert names[..i + 1] == names[..i] + [names[i]];
      i := i + 1;
    }
    assert names[..i] == names;
    return Some(acc);
  }

  /** A name listed in the dictionary comes from some model name of the answer. */
  lemma ListedNameOrigin(names: seq<string>, name: string)
    requires name in ListedNames(names)
    ensures exists i :: 0 <= i < |names| && NormaliseName(names[i]) == name
  {
  }

  /** Names that normalise equally collapse into one entry. */
  lemma TaggedAndUntaggedCollapse(base: string)
    requires !Contains(base, LATEST_TAG)
    ensures ListedNames([base, base + LATEST_TAG]) == {base}
  {
    NormaliseLatestTag(base, "");
    assert base + LATEST_TAG + "" == base + LATEST_TAG;
    assert base + "" == base;
    var names := [base, base + LATEST_TAG];
    assert NormaliseName(names[0]) == base && NormaliseName(names[1]) == base;
    assert base in ListedNames(names);
  }

  /** The address the model list is read from. */
  function TagsUrl(ollamaUrl: string): (url: string)
    ensures |url| == |ollamaUrl| + |TAGS_PATH|
    ensures url[..|ollamaUrl|] == ollamaUrl && url[|ollamaUrl|..] == TAGS_PATH
  {
    ollamaUrl + TAGS_PATH
  }

  /** The JSON body of a generate request. */
  datatype GenerateBody = GenerateBody(prompt: string, model: string, stream: bool)

  datatype GenerateRequest = GenerateRequest(url: string, httpMethod: string, body: GenerateBody)

  /** The request `process` sends: a non-streaming POST of the text and the model to the server's
      generate endpoint. */
  function GenerateRequestOf(text: string, baseUrl: string, model: string): (req: GenerateRequest)
    ensures |req.url| == |baseUrl| + |GENERATE_PATH|
    ensures req.url[..|baseUrl|] == baseUrl && req.url[|baseUrl|..] == GENERATE_PATH
    ensures req.httpMethod == "POST" && !req.body.stream
    ensures req.body.prompt == text && req.body.model == model
  {
    GenerateRequest(baseUrl + GENERATE_PATH, "POST", GenerateBody(text, model, false))
  }

  /** The request carries all three arguments: different calls send different requests. */
  lemma GenerateRequestInjective(t1: string, b1: string, m1: string, t2: string, b2: string, m2: string)
    requires GenerateRequestOf(t1, b1, m1) == GenerateRequestOf(t2, b2, m2)
    ensures t1 == t2 && b1 == b2 && m1 == m2
  {
    var u := GenerateRequestOf(t1, b1, m1).url;
    assert |b1| == |b2|;
    assert b1 == u[..|b1|] == b2;
  }

  /** `process`: the `response` field of the server's answer to the generate request. */
  function Process(text: string, baseUrl: string, model: string, server: GenerateRequest -> string): string {
    server(GenerateRequestOf(text, baseUrl, model))
  }
}
