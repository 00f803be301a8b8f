/** The canonical dictionary record and the normaliser that shapes a raw catalog
    payload into one (`Dictionary.__format_record` in dictionary.py). */
module Normalizer {
  import opened Wrappers
  import opened JsonValues

  /** A raw catalog payload: a decoded JSON object. */
  type Raw = map<string, Json>

  /** The five-field canonical record stored in the dictionary. `id`, `name` and
      `customFields` are copied from the payload unchanged; `source` and
      `description` are produced by the URL-joining and text-extraction libraries. */
  datatype Record = Record(
    id: Json,
    source: string,
    name: Json,
    description: string,
    customFields: Json)

  /** Why formatting a payload raised: a required key is absent (`KeyError`), or
      the library given that key's value refused it. */
  datatype FormatError = MissingKey(key: string) | Rejected(key: string)

  /** The foreign libraries the normaliser calls, as opaque functions.
      `urljoin(base, url)` resolves a URL reference against a base; `getText(html)`
      is the stripped visible text of an HTML fragment. `None` means the library
      raised on that input. */
  datatype Env = Env(
    urljoin: (string, Json) -> Option<string>,
    getText: Json -> Option<string>)

  /** The catalog's address, against which relative record URLs are resolved. */
  const BaseUri: string := "https://alation.medcity.net/"

  /** The payload keys the normaliser reads, in the order it reads them. */
  const RequiredKeys: seq<string> := ["id", "url", "name", "description", "custom_fields"]

  /** Every required key is present. */
  predicate HasRequiredKeys(raw: Raw) {
    "id" in raw && "url" in raw && "name" in raw && "description" in raw && "custom_fields" in raw
  }

  /** Normalises a raw payload. The keys are read in the order of `RequiredKeys`;
      URL joining runs as soon as `url` is read and text extraction as soon as
      `description` is read, so the first of these steps to fail decides the error. */
  function Format(env: Env, raw: Raw): (r: Result<Record, FormatError>)
    // Success exactly when every key is present and both libraries accept their input.
    ensures r.Success? <==>
      && HasRequiredKeys(raw)
      && env.urljoin(BaseUri, raw["url"]).Some?
      && env.getText(raw["description"]).Some?
    // The copied fields are verbatim; the derived ones come from the libraries.
    ensures r.Success? ==>
      && r.value.id == raw["id"]
      && r.value.name == raw["name"]
      && r.value.customFields == raw["custom_fields"]
      && Some(r.value.source) == env.urljoin(BaseUri, raw["url"])
      && Some(r.value.description) == env.getText(raw["description"])
    // A missing key is a required key that is absent while every key read before it is present.
    ensures r.Failure? && r.error.MissingKey? ==>
      && r.error.key in RequiredKeys
      && r.error.key !in raw
      && forall i, j | 0 <= i < j < |RequiredKeys| && RequiredKeys[j] == r.error.key :: RequiredKeys[i] in raw
    // A key read after `url` is reported missing only once URL joining has succeeded ...
    ensures r.Failure? && r.error.MissingKey? && r.error.key != "id" && r.error.key != "url" ==>
      "url" in raw && env.urljoin(BaseUri, raw["url"]).Some?
    // ... and `custom_fields` only once text extraction has succeeded too.
    ensures r.Failure? && r.error == MissingKey("custom_fields") ==>
      "description" in raw && env.getText(raw["description"]).Some?
    // A rejection names `url` or `description`: that library refused the value, and
    // every earlier step succeeded.
    ensures r.Failure? && r.error.Rejected? ==>
      || (r.error.key == "url" && "id" in raw && "url" in raw
          && env.urljoin(BaseUri, raw["url"]).None?)
      || (r.error.key == "description" && "id" in raw && "url" in raw && "name" in raw
          && "description" in raw && env.urljoin(BaseUri, raw["url"]).Some?
          && env.getText(raw["description"]).None?)
  {
    if "id" !in raw then Failure(MissingKey("id"))
    else if "url" !in raw then Failure(MissingKey("url"))
    else match env.urljoin(BaseUri, raw["url"])
      case None => Failure(Rejected("url"))
      case Some(source) =>
        if "name" !in raw then Failure(MissingKey("name"))
        else if "description" !in raw then Failure(MissingKey("description"))
        else match env.getText(raw["description"])
          case None => Failure(Rejected("description"))
          case Some(text) =>
            if "custom_fields" !in raw then Failure(MissingKey("custom_fields"))
            else Success(Record(raw["id"], source, raw["name"], text, raw["custom_fields"]))
  }

  /** Formatting reads only the five required keys: payloads that agree on them
      (and on which of them are present) format identically, whatever else they hold. */
  lemma FormatIgnoresOtherKeys(env: Env, raw: Raw, other: Raw)
    requires forall k | k in RequiredKeys :: (k in raw <==> k in other)
    requires forall k | k in RequiredKeys && k in raw :: raw[k] == other[k]
    ensures Format(env, raw) == Format(env, other)
  {
  }
}
