/** The three shapes the message decoder reads nested values in: an array
    decoded element by element, an optional nested object, and a paged-list
    envelope `{data: [...], paging: {...}}` whose `data` may be missing. */
module ElementDecoding {
  import opened Results
  import opened JsonTree
  import opened Collaborators
  import opened Entities

  /** One turn of the source's element loop: `decode(list.getJSONObject(i))`. */
  function ElementResult<T>(items: seq<Json>, decode: JsonObject -> Result<T>, i: nat): (r: Result<T>)
    requires i < |items|
    ensures items[i].JObject? ==> r == decode(items[i].fields)
    ensures !items[i].JObject? ==> r == Err(Wrapped(ElementNotAJSONObject(i)))
  {
    var e :- GetJSONObjectAt(items, i);
    decode(e)
  }

  /** `xs` is the element-wise decoding of `items`: as many values, in the same order,
      each one what `decode` makes of the object at its position. */
  ghost predicate ElementsDecode<T>(items: seq<Json>, decode: JsonObject -> Result<T>, xs: seq<T>) {
    && |xs| == |items|
    && forall i :: 0 <= i < |items| ==> items[i].JObject? && decode(items[i].fields) == Ok(xs[i])
  }

  /** The loop `for (i = start; i < length; i++) list.add(decode(getJSONObject(i)))`,
      stopping at the first element that fails. */
  function DecodeFrom<T>(items: seq<Json>, decode: JsonObject -> Result<T>, start: nat): (r: Result<seq<T>>)
    requires start <= |items|
    ensures r.Ok? <==> forall i :: start <= i < |items| ==> ElementResult(items, decode, i).Ok?
    ensures r.Ok? ==> |r.value| == |items| - start
    ensures r.Ok? ==> forall i :: start <= i < |items| ==> items[i].JObject? && decode(items[i].fields) == Ok(r.value[i - start])
    ensures r.Err? ==> exists k :: start <= k < |items| && ElementResult(items, decode, k) == Err(r.error)
                                   && forall j :: start <= j < k ==> ElementResult(items, decode, j).Ok?
    decreases |items| - start
  {
    if start == |items| then Ok([])
    else
      var x :- ElementResult(items, decode, start);
      var rest :- DecodeFrom(items, decode, start + 1);
      Ok([x] + rest)
  }

  /** A whole JSON array decoded element by element. */
  function DecodeEach<T>(items: seq<Json>, decode: JsonObject -> Result<T>): (r: Result<seq<T>>)
    ensures r.Ok? ==> ElementsDecode(items, decode, r.value)
    ensures r.Err? ==> exists k :: 0 <= k < |items| && ElementResult(items, decode, k) == Err(r.error)
                                   && forall j :: 0 <= j < k ==> ElementResult(items, decode, j).Ok?
  {
    DecodeFrom(items, decode, 0)
  }

  /** The element-wise decoding is the only one: whenever `xs` decodes `items`,
      `DecodeEach` succeeds with exactly `xs`. */
  lemma DecodeEachComplete<T>(items: seq<Json>, decode: JsonObject -> Result<T>, xs: seq<T>)
    requires ElementsDecode(items, decode, xs)
    ensures DecodeEach(items, decode) == Ok(xs)
  {
    var r := DecodeFrom(items, decode, 0);
    forall i | 0 <= i < |items|
      ensures ElementResult(items, decode, i) == Ok(xs[i])
    {
      assert items[i].JObject? && decode(items[i].fields) == Ok(xs[i]);
    }
    assert r.Ok?;
    assert |r.value| == |xs|;
    forall i | 0 <= i < |xs|
      ensures r.value[i] == xs[i]
    {
      assert decode(items[i].fields) == Ok(r.value[i - 0]);
    }
    assert r.value == xs;
  }

  /** `v` is what the source leaves in a field read as
      `if (!json.isNull(key)) field = decode(json.getJSONObject(key))`. */
  ghost predicate OptionalDecodes<T>(o: JsonObject, key: string, decode: JsonObject -> Result<T>, v: Option<T>) {
    if IsNull(o, key) then v.None?
    else o[key].JObject? && v.Some? && decode(o[key].fields) == Ok(v.value)
  }

  /** An optional nested object: left null when the member is absent or null,
      otherwise required to be an object and decoded. */
  function DecodeOptional<T>(o: JsonObject, key: string, decode: JsonObject -> Result<T>): (r: Result<Option<T>>)
    ensures IsNull(o, key) ==> r == Ok(None)
    ensures r.Ok? ==> OptionalDecodes(o, key, decode, r.value)
    ensures !IsNull(o, key) && !o[key].JObject? ==> r == Err(Wrapped(NotAJSONObject(key)))
    ensures !IsNull(o, key) && o[key].JObject? && decode(o[key].fields).Err? ==> r == Err(decode(o[key].fields).error)
  {
    if IsNull(o, key) then Ok(None)
    else
      var obj :- GetJSONObject(o, key);
      var v :- decode(obj);
      Ok(Some(v))
  }

  /** The optional decoding is the only one: whenever `v` is what the source
      leaves in the field, `DecodeOptional` succeeds with exactly `v`. */
  lemma DecodeOptionalComplete<T>(o: JsonObject, key: string, decode: JsonObject -> Result<T>, v: Option<T>)
    requires OptionalDecodes(o, key, decode, v)
    ensures DecodeOptional(o, key, decode) == Ok(v)
  {
  }

  /** `l` is what the source builds for a paged member `key`:
      - absent or null: an empty list without paging;
      - an object with a non-null `data`: `data` must be an array, decoded element by
        element, with the envelope's paging;
      - an object without `data`: no element at all, with the envelope's paging. */
  ghost predicate PagedDecodes<T>(p: Parsers, o: JsonObject, key: string, decode: JsonObject -> Result<T>, l: PagedList<T>) {
    if IsNull(o, key) then l.items == [] && l.paging.None?
    else
      && o[key].JObject?
      && l.paging.Some?
      && p.paging(o[key].fields) == Ok(l.paging.value)
      && (if IsNull(o[key].fields, "data") then l.items == []
          else o[key].fields["data"].JArray? && ElementsDecode(o[key].fields["data"].items, decode, l.items))
  }

  /** A paged member such as `comments` or `attachments`. */
  function DecodePaged<T>(p: Parsers, o: JsonObject, key: string, decode: JsonObject -> Result<T>): (r: Result<PagedList<T>>)
    ensures IsNull(o, key) ==> r == Ok(PagedList([], None))
    ensures r.Ok? ==> PagedDecodes(p, o, key, decode, r.value)
    ensures !IsNull(o, key) && !o[key].JObject? ==> r == Err(Wrapped(NotAJSONObject(key)))
    ensures !IsNull(o, key) && o[key].JObject? && !IsNull(o[key].fields, "data") && !o[key].fields["data"].JArray?
            ==> r == Err(Wrapped(NotAJSONArray("data")))
    ensures (&& !IsNull(o, key) && o[key].JObject?
             && (IsNull(o[key].fields, "data") || o[key].fields["data"].JArray?)
             && p.paging(o[key].fields).Err?)
            ==> r == Err(p.paging(o[key].fields).error)
  {
    if IsNull(o, key) then Ok(PagedList([], None))
    else
      var env :- GetJSONObject(o, key);
      if !IsNull(env, "data") then
        var list :- GetJSONArray(env, "data");
        var paging :- p.paging(env);
        var xs :- DecodeEach(list, decode);
        Ok(PagedList(xs, Some(paging)))
      else
        var paging :- p.paging(env);
        Ok(PagedList([], Some(paging)))
  }

  /** The paged decoding is the only one: whenever `l` is what the source builds,
      `DecodePaged` succeeds with exactly `l`. */
  lemma DecodePagedComplete<T>(p: Parsers, o: JsonObject, key: string, decode: JsonObject -> Result<T>, l: PagedList<T>)
    requires PagedDecodes(p, o, key, decode, l)
    ensures DecodePaged(p, o, key, decode) == Ok(l)
  {
    if !IsNull(o, key) && !IsNull(o[key].fields, "data") {
      DecodeEachComplete(o[key].fields["data"].items, decode, l.items);
    }
  }
}
