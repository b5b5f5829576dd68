/** The decision logic of `POST /api/games`: check the required fields, reject a
    title that an existing game already has (ignoring case), and build the new
    record. The handler only returns the record; it does not add it to any
    collection, so the collection is an input and nothing here can change it. */
module GamesRoute {
  import opened Seqs
  import Storage

  /** A parsed JSON value, as `request.json()` yields it. A number is a real; a
      number that is not 0 stands for every truthy number, `Infinity` (what
      `1e400` parses to) included. */
  datatype Json =
    | JNull
    | JBool(b: bool)
    | JNum(n: real)
    | JStr(s: string)
    | JArray(items: seq<Json>)
    | JObject(fields: map<string, Json>)

  /** The fields a new game must carry. */
  datatype Field = Title | Category | IframeUrl | Thumbnail | Status

  /** The member name of each required field in the request body. */
  function Name(f: Field): string {
    match f
    case Title => "title"
    case Category => "category"
    case IframeUrl => "iframeUrl"
    case Thumbnail => "thumbnail"
    case Status => "status"
  }

  /** The required fields, in the order they are checked and reported. */
  const RequiredFields: seq<Field> := [Title, Category, IframeUrl, Thumbnail, Status]

  /** The members the handler writes over whatever the request supplied. */
  const GeneratedFields: set<string> := {"id", "createdAt", "updatedAt", "playCount", "addedDate"}

  /** `data[field]` for a body that is not `null` and one of the five required
      names, which no JSON value inherits: the member of an object, and `undefined`
      (`None`) for a missing member or a body that is not an object. Inherited and
      built-in members (`constructor`, `length`) are not modelled. */
  function Lookup(data: Json, field: string): (v: Option<Json>)
    ensures v.Some? <==> data.JObject? && field in data.fields
    ensures v.Some? ==> v.value == data.fields[field]
  {
    if data.JObject? && field in data.fields then Some(data.fields[field]) else None
  }

  /** JavaScript truthiness of a looked-up value: `undefined`, `null`, `false`,
      `0` and `""` are falsy, everything else (arrays and objects included) is truthy. */
  predicate Truthy(v: Option<Json>)
    ensures Truthy(v) <==> v.Some? && !(v.value == JNull || v.value == JBool(false) ||
                                        v.value == JNum(0.0) || v.value == JStr(""))
  {
    match v
    case None => false
    case Some(JNull) => false
    case Some(JBool(b)) => b
    case Some(JNum(n)) => n != 0.0
    case Some(JStr(s)) => s != ""
    case Some(JArray(_)) => true
    case Some(JObject(_)) => true
  }

  /** The predicate `field => !data[field]` of the required-field filter. */
  function FieldMissing(data: Json): Field -> bool {
    (f: Field) => !Truthy(Lookup(data, Name(f)))
  }

  /** `requiredFields.filter(field => !data[field])`. */
  function MissingFields(data: Json): (r: seq<Field>)
    ensures |r| <= |RequiredFields|
    ensures forall i :: 0 <= i < |r| ==> !Truthy(Lookup(data, Name(r[i])))
    ensures forall f :: !Truthy(Lookup(data, Name(f))) ==> f in r
  {
    var r := Filter(RequiredFields, FieldMissing(data));
    forall f | !Truthy(Lookup(data, Name(f)))
      ensures f in r
    {
      assert f == RequiredFields[IndexOf(f)];
    }
    r
  }

  /** Where `f` stands in the list of required fields, which names every field. */
  function IndexOf(f: Field): (i: nat)
    ensures i < |RequiredFields| && RequiredFields[i] == f
  {
    match f
    case Title => 0
    case Category => 1
    case IframeUrl => 2
    case Thumbnail => 3
    case Status => 4
  }

  /** `[f]` when `f` is missing from `data`, nothing otherwise. */
  function IfMissing(data: Json, f: Field): seq<Field> {
    if Truthy(Lookup(data, Name(f))) then [] else [f]
  }

  /** The missing-field list names exactly the absent or empty required fields,
      each once, in the fixed order title, category, iframeUrl, thumbnail, status. */
  lemma MissingFieldsInOrder(data: Json)
    ensures MissingFields(data) ==
      IfMissing(data, Title) + (IfMissing(data, Category) + (IfMissing(data, IframeUrl) +
      (IfMissing(data, Thumbnail) + IfMissing(data, Status))))
  {
    MissingFromCategory(data);
    FilterCons(Title, [Category, IframeUrl, Thumbnail, Status], FieldMissing(data));
    assert RequiredFields == [Title] + [Category, IframeUrl, Thumbnail, Status];
  }

  /** The order lemma for the last four required fields. */
  lemma MissingFromCategory(data: Json)
    ensures Filter([Category, IframeUrl, Thumbnail, Status], FieldMissing(data)) ==
      IfMissing(data, Category) + (IfMissing(data, IframeUrl) +
      (IfMissing(data, Thumbnail) + IfMissing(data, Status)))
  {
    MissingFromIframeUrl(data);
    FilterCons(Category, [IframeUrl, Thumbnail, Status], FieldMissing(data));
    assert [Category] + [IframeUrl, Thumbnail, Status] == [Category, IframeUrl, Thumbnail, Status];
  }

  /** The order lemma for the last three required fields. */
  lemma MissingFromIframeUrl(data: Json)
    ensures Filter([IframeUrl, Thumbnail, Status], FieldMissing(data)) ==
      IfMissing(data, IframeUrl) + (IfMissing(data, Thumbnail) + IfMissing(data, Status))
  {
    MissingFromThumbnail(data);
    FilterCons(IframeUrl, [Thumbnail, Status], FieldMissing(data));
    assert [IframeUrl] + [Thumbnail, Status] == [IframeUrl, Thumbnail, Status];
  }

  /** The order lemma for the last two required fields. */
  lemma MissingFromThumbnail(data: Json)
    ensures Filter([Thumbnail, Status], FieldMissing(data)) ==
      IfMissing(data, Thumbnail) + IfMissing(data, Status)
  {
    FilterCons(Status, [], FieldMissing(data));
    FilterCons(Thumbnail, [Status], FieldMissing(data));
    assert [Thumbnail] + [Status] == [Thumbnail, Status];
  }

  /** `c` and `d` are the same letter up to ASCII case, or the same character. */
  predicate SameIgnoringCase(c: char, d: char) {
    c == d ||
    ('A' <= c <= 'Z' && d as int == c as int + 32) ||
    ('A' <= d <= 'Z' && c as int == d as int + 32)
  }

  /** `a` and `b` spell the same text up to ASCII case. */
  predicate EqualIgnoringCase(a: string, b: string) {
    |a| == |b| && forall i :: 0 <= i < |a| ==> SameIgnoringCase(a[i], b[i])
  }

  /** `c.toLowerCase()` on the ASCII letters; other characters are left as they are. */
  function LowerChar(c: char): (r: char)
    ensures !('A' <= r <= 'Z')
    ensures r == c <==> !('A' <= c <= 'Z')
    ensures 'A' <= c <= 'Z' ==> 'a' <= r <= 'z'
    ensures SameIgnoringCase(c, r)
  {
    if 'A' <= c <= 'Z' then (c as int + ('a' as int - 'A' as int)) as char else c
  }

  /** `s.toLowerCase()`, character by character. */
  function Lower(s: string): (r: string)
    ensures |r| == |s|
    ensures forall i :: 0 <= i < |s| ==> r[i] == LowerChar(s[i])
    ensures forall i :: 0 <= i < |r| ==> !('A' <= r[i] <= 'Z')
  {
    if s == [] then [] else [LowerChar(s[0])] + Lower(s[1..])
  }

  /** Lowercasing twice is lowercasing once: a lowercased title is its own
      lowercase form, so comparing it against a title on file gives the same
      answer as comparing the title it came from. */
  lemma LowerIdempotent(s: string)
    ensures Lower(Lower(s)) == Lower(s)
  {
  }

  /** Two characters lowercase alike exactly when they agree up to ASCII case. */
  lemma LowerCharSame(c: char, d: char)
    ensures LowerChar(c) == LowerChar(d) <==> SameIgnoringCase(c, d)
  {
  }

  /** Two strings lowercase alike exactly when they agree up to ASCII case. */
  lemma LowerSame(a: string, b: string)
    ensures Lower(a) == Lower(b) <==> EqualIgnoringCase(a, b)
  {
    if |a| == |b| {
      forall i | 0 <= i < |a|
        ensures Lower(a)[i] == Lower(b)[i] <==> SameIgnoringCase(a[i], b[i])
      {
        LowerCharSame(a[i], b[i]);
      }
      if EqualIgnoringCase(a, b) {
        assert forall i :: 0 <= i < |a| ==> Lower(a)[i] == Lower(b)[i];
      }
    }
  }

  /** The predicate of the duplicate-title `find`. */
  function ClashesWith(title: string): (p: Storage.Game -> bool)
    ensures forall g: Storage.Game :: p(g) <==> EqualIgnoringCase(g.title, title)
  {
    LowerSameAll(title);
    (g: Storage.Game) => Lower(g.title) == Lower(title)
  }

  /** `LowerSame` against one fixed title, for every other. */
  lemma LowerSameAll(title: string)
    ensures forall a: string :: Lower(a) == Lower(title) <==> EqualIgnoringCase(a, title)
  {
    forall a: string
      ensures Lower(a) == Lower(title) <==> EqualIgnoringCase(a, title)
    {
      LowerSame(a, title);
    }
  }

  /** The outcome of the handler; the HTTP status is given by `StatusCode`. */
  datatype Outcome =
    | Created(game: map<string, Json>)
    | BadRequest(missing: seq<Field>)
    | DuplicateTitle
    | ServerError

  /** The status code each outcome is answered with. */
  function StatusCode(o: Outcome): (code: int)
    ensures code == 200 <==> o.Created?
    ensures code == 400 <==> o.BadRequest? || o.DuplicateTitle?
    ensures code == 500 <==> o.ServerError?
  {
    match o
    case Created(_) => 200
    case BadRequest(_) => 400
    case DuplicateTitle => 400
    case ServerError => 500
  }

  /** `{...data, id, createdAt: now, updatedAt: now, playCount: 0, addedDate: now}`. */
  function NewRecord(fields: map<string, Json>, id: string, now: string): (r: map<string, Json>)
    ensures r.Keys == fields.Keys + GeneratedFields
  {
    fields["id" := JStr(id)]["createdAt" := JStr(now)]["updatedAt" := JStr(now)]
          ["playCount" := JNum(0.0)]["addedDate" := JStr(now)]
  }

  /** The POST handler. `existing` is the bundled games collection, `body` the
      parsed request body (`None` when the body is not valid JSON), `id` the random
      token and `now` the ISO timestamp taken by the handler. Any exception inside
      the handler is answered with a server error. */
  function Post(existing: seq<Storage.Game>, body: Option<Json>, id: string, now: string): (o: Outcome)
    ensures o.BadRequest? ==> body.Some? && o.missing != []
    ensures o.BadRequest? ==>
              forall i :: 0 <= i < |o.missing| ==> !Truthy(Lookup(body.value, Name(o.missing[i])))
    ensures o.DuplicateTitle? ==> existing != []
  {
    if body.None? || body.value.JNull? then
      // the body did not parse, or `data[field]` was read off `null`
      ServerError
    else
      var data := body.value;
      MissingFieldsInOrder(data);
      var missing := MissingFields(data);
      if |missing| > 0 then BadRequest(missing)
      else
        var fields := data.fields;
        match fields["title"]
        case JStr(t) =>
          if Find(existing, ClashesWith(t)).Some? then DuplicateTitle
          else Created(NewRecord(fields, id, now))
        case _ =>
          // a title that is not a string has no `toLowerCase`: the first call of
          // the `find` callback throws, and there is none when `existing` is empty
          if existing != [] then ServerError
          else Created(NewRecord(fields, id, now))
  }

  // ---------------------------------------------------------------------------
  // Properties of the handler

  /** The body of a request that passes the required-field check is an object
      carrying every required field with a truthy value. */
  lemma NoneMissing(data: Json)
    requires MissingFields(data) == []
    ensures data.JObject?
    ensures forall f :: Truthy(Lookup(data, Name(f)))
  {
    MissingFieldsInOrder(data);
    assert IfMissing(data, Title) == [] && IfMissing(data, Category) == [];
    assert IfMissing(data, IframeUrl) == [] && IfMissing(data, Thumbnail) == [];
    assert IfMissing(data, Status) == [];
    forall f
      ensures Truthy(Lookup(data, Name(f)))
    {
      assert IfMissing(data, f) == [];
    }
  }

  /** With a required field `f` missing the answer is 400 with the list of missing
      fields, which names `f`; it does not depend on the collection, so the
      duplicate check is not reached. */
  lemma PostRejectsMissing(existing: seq<Storage.Game>, other: seq<Storage.Game>,
                           data: Json, f: Field, id: string, now: string)
    requires !data.JNull? && !Truthy(Lookup(data, Name(f)))
    ensures f in MissingFields(data)
    ensures Post(existing, Some(data), id, now) == BadRequest(MissingFields(data))
    ensures Post(existing, Some(data), id, now) == Post(other, Some(data), id, now)
    ensures StatusCode(Post(existing, Some(data), id, now)) == 400
  {
    MissingFieldsInOrder(data);
    assert IfMissing(data, f) == [f];
  }

  /** With every required field present and a string title, the request is
      refused as a duplicate exactly when some existing title equals it once both
      are lowercased; otherwise the record is built. */
  lemma PostDuplicateIff(existing: seq<Storage.Game>, data: Json, id: string, now: string, t: string)
    requires data.JObject? && MissingFields(data) == []
    requires "title" in data.fields && data.fields["title"] == JStr(t)
    ensures Post(existing, Some(data), id, now) == DuplicateTitle <==>
      exists i :: 0 <= i < |existing| && Lower(existing[i].title) == Lower(t)
    ensures Post(existing, Some(data), id, now) == DuplicateTitle <==>
      exists i :: 0 <= i < |existing| && EqualIgnoringCase(existing[i].title, t)
    ensures Post(existing, Some(data), id, now) != DuplicateTitle ==>
      Post(existing, Some(data), id, now) == Created(NewRecord(data.fields, id, now))
  {
  }

  /** The generated member names differ from each other and from the required ones. */
  lemma NamesDistinct()
    ensures forall f :: Name(f) !in GeneratedFields
    ensures "id" != "createdAt" && "id" != "updatedAt" && "id" != "playCount" && "id" != "addedDate"
    ensures "createdAt" != "updatedAt" && "createdAt" != "playCount" && "createdAt" != "addedDate"
    ensures "updatedAt" != "playCount" && "updatedAt" != "addedDate" && "playCount" != "addedDate"
  {
    assert "id"[0] == 'i' && "createdAt"[0] == 'c' && "updatedAt"[0] == 'u';
    assert "playCount"[0] == 'p' && "addedDate"[0] == 'a';
    assert "category"[1] == 'a' && "createdAt"[1] == 'r';
  }

  /** The built record has the request's members plus the generated ones; the
      generated ones hold the record id, no plays and `now` three times, and every
      other member is the request's own. */
  lemma NewRecordFields(fields: map<string, Json>, id: string, now: string)
    ensures NewRecord(fields, id, now).Keys == fields.Keys + GeneratedFields
    ensures NewRecord(fields, id, now)["id"] == JStr(id)
    ensures NewRecord(fields, id, now)["playCount"] == JNum(0.0)
    ensures NewRecord(fields, id, now)["createdAt"] == JStr(now)
    ensures NewRecord(fields, id, now)["updatedAt"] == JStr(now)
    ensures NewRecord(fields, id, now)["addedDate"] == JStr(now)
    ensures forall k :: k in fields && k !in GeneratedFields ==> NewRecord(fields, id, now)[k] == fields[k]
  {
    NamesDistinct();
  }

  /** A created record is built from an object body that passed the required-field
      check and whose title, when it is a string, clashes with no existing title. */
  lemma PostCreatedFrom(existing: seq<Storage.Game>, body: Option<Json>, id: string, now: string,
                        r: map<string, Json>)
    requires Post(existing, body, id, now) == Created(r)
    ensures body.Some? && body.value.JObject? && MissingFields(body.value) == []
    ensures "title" in body.value.fields
    ensures r == NewRecord(body.value.fields, id, now)
    ensures body.value.fields["title"].JStr? ==>
      forall i :: 0 <= i < |existing| ==> Lower(existing[i].title) != Lower(body.value.fields["title"].s)
  {
    NoneMissing(body.value);
    assert Truthy(Lookup(body.value, Name(Title)));
  }

  /** A created record is the request's object with the generated members written
      over it: record id `id`, no plays, and the same `now` as creation, update
      and addition time; every other member is the request's own, every required
      field is present and non-empty, and no existing title clashes with it. */
  lemma PostCreatedRecord(existing: seq<Storage.Game>, body: Option<Json>, id: string, now: string,
                          r: map<string, Json>)
    requires Post(existing, body, id, now) == Created(r)
    ensures body.Some? && body.value.JObject?
    ensures r.Keys == body.value.fields.Keys + GeneratedFields
    ensures r["id"] == JStr(id) && r["playCount"] == JNum(0.0)
    ensures r["createdAt"] == JStr(now) && r["updatedAt"] == JStr(now) && r["addedDate"] == JStr(now)
    ensures forall k :: k in body.value.fields && k !in GeneratedFields ==> r[k] == body.value.fields[k]
    ensures forall f :: Truthy(Lookup(JObject(r), Name(f)))
    ensures r["title"].JStr? ==>
      forall i :: 0 <= i < |existing| ==> Lower(existing[i].title) != Lower(r["title"].s)
  {
    PostCreatedFrom(existing, body, id, now, r);
    var data := body.value;
    NoneMissing(data);
    NewRecordFields(data.fields, id, now);
    NamesDistinct();
    forall f
      ensures Truthy(Lookup(JObject(r), Name(f)))
    {
      assert Lookup(JObject(r), Name(f)) == Lookup(data, Name(f));
    }
  }

  /** The handler fails with a server error exactly when the body is not JSON, is
      `null`, or carries a non-string title while there are games to compare it with. */
  lemma PostServerErrorIff(existing: seq<Storage.Game>, body: Option<Json>, id: string, now: string)
    ensures Post(existing, body, id, now) == ServerError <==>
      body.None? || body.value.JNull? ||
      (MissingFields(body.value) == [] && !body.value.fields["title"].JStr? && existing != [])
  {
    if body.Some? && MissingFields(body.value) == [] {
      NoneMissing(body.value);
    }
  }

  // ---------------------------------------------------------------------------
  // Scenarios

  /** A request body carrying only a title. */
  const OnlyTitleBody: Json := JObject(map["title" := JStr("X")])

  /** Of the required fields the only-title body carries just the title. */
  lemma OnlyTitleLookups()
    ensures IfMissing(OnlyTitleBody, Title) == []
    ensures IfMissing(OnlyTitleBody, Category) == [Category]
    ensures IfMissing(OnlyTitleBody, IframeUrl) == [IframeUrl]
    ensures IfMissing(OnlyTitleBody, Thumbnail) == [Thumbnail]
    ensures IfMissing(OnlyTitleBody, Status) == [Status]
  {
    assert OnlyTitleBody.fields.Keys == {"title"};
    assert "category" != "title" && "iframeUrl" != "title" && "thumbnail" != "title" && "status" != "title";
  }

  /** The only-title body lacks the four other required fields, listed in order. */
  lemma OnlyTitleMissing()
    ensures MissingFields(OnlyTitleBody) == [Category, IframeUrl, Thumbnail, Status]
  {
    OnlyTitleLookups();
    MissingFieldsInOrder(OnlyTitleBody);
    assert [] + ([Category] + ([IframeUrl] + ([Thumbnail] + [Status])))
      == [Category, IframeUrl, Thumbnail, Status];
  }

  /** A body carrying only a title is refused with the four other fields listed in order. */
  lemma OnlyTitleScenario(existing: seq<Storage.Game>, id: string, now: string)
    ensures Post(existing, Some(OnlyTitleBody), id, now) ==
      BadRequest([Category, IframeUrl, Thumbnail, Status])
  {
    OnlyTitleMissing();
    OnlyTitleLookups();
    PostRejectsMissing(existing, existing, OnlyTitleBody, Category, id, now);
  }

  /** A complete request body for a game titled "alpha". */
  const AlphaBody: Json := JObject(map[
    "title" := JStr("alpha"), "category" := JStr("Arcade"), "iframeUrl" := JStr("https://x/a"),
    "thumbnail" := JStr("https://x/a.png"), "status" := JStr("active")])

  /** The "alpha" body carries every required field. */
  lemma AlphaBodyComplete()
    ensures AlphaBody.JObject? && MissingFields(AlphaBody) == []
    ensures "title" in AlphaBody.fields && AlphaBody.fields["title"] == JStr("alpha")
  {
    assert IfMissing(AlphaBody, Title) == [] && IfMissing(AlphaBody, Category) == [];
    assert IfMissing(AlphaBody, IframeUrl) == [] && IfMissing(AlphaBody, Thumbnail) == [];
    assert IfMissing(AlphaBody, Status) == [];
    MissingFieldsInOrder(AlphaBody);
  }

  /** "Alpha" is on file, so "alpha" is refused as a duplicate. */
  lemma CaseInsensitiveClashScenario(g: Storage.Game, id: string, now: string)
    requires g.title == "Alpha"
    ensures Post([g], Some(AlphaBody), id, now) == DuplicateTitle
  {
    AlphaBodyComplete();
    assert Lower([g][0].title) == Lower("alpha");
    PostDuplicateIff([g], AlphaBody, id, now, "alpha");
  }
}
