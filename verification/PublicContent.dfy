/** Saving and loading the structured public pages, with Go structs described by shapes. */
module PublicContent {
  import opened GoStrings
  import opened Json

  /* A page's body is one JSON object in which a form's members are merged in place; loading decodes the form's
     members out of it and fills in missing languages. One mapper serves every shape of form. */

  /* ---------- forms ---------- */

  datatype Shape =
    | TextShape
    | FlagShape
    | LangShape
    | RichShape
    | ListShape(element: Shape)
    | StructShape(fields: seq<Field>)

  datatype Field = Field(name: string, shape: Shape)

  /** A Go value of some shape. `None` is a nil map. */
  datatype Dto =
    | Text(text: string)
    | Flag(flag: bool)
    | Lang(texts: Option<map<string, string>>)
    | Rich(docs: Option<map<string, Json>>)
    | NilList
    | List(items: seq<Dto>)
    | Struct(members: seq<Dto>)

  predicate Conforms(shape: Shape, d: Dto) {
    match shape
    case TextShape => d.Text?
    case FlagShape => d.Flag?
    case LangShape => d.Lang?
    case RichShape => d.Rich?
    case ListShape(element) =>
      d.NilList? || (d.List? && forall i :: 0 <= i < |d.items| ==> Conforms(element, d.items[i]))
    case StructShape(fields) =>
      d.Struct? && |d.members| == |fields| && forall i :: 0 <= i < |fields| ==> Conforms(fields[i].shape, d.members[i])
  }

  /** The member names of every struct are distinct. */
  predicate DistinctNames(shape: Shape) {
    match shape
    case ListShape(element) => DistinctNames(element)
    case StructShape(fields) =>
      && (forall i, j :: 0 <= i < j < |fields| ==> fields[i].name != fields[j].name)
      && forall i :: 0 <= i < |fields| ==> DistinctNames(fields[i].shape)
    case _ => true
  }

  /* ---------- JSON ---------- */

  function Encode(shape: Shape, d: Dto): Json
    requires Conforms(shape, d)
    decreases shape, 1, 0
  {
    match d
    case Text(s) => JString(s)
    case Flag(b) => JBool(b)
    case Lang(None) => JNull
    case Lang(Some(texts)) => JObject(map k | k in texts :: JString(texts[k]))
    case Rich(None) => JNull
    case Rich(Some(docs)) => JObject(docs)
    case NilList => JNull
    case List(items) => JArray(EncodeItems(shape.element, items))
    case Struct(members) => JObject(EncodeMembers(shape.fields, members))
  }

  function EncodeItems(element: Shape, items: seq<Dto>): (r: seq<Json>)
    requires forall i :: 0 <= i < |items| ==> Conforms(element, items[i])
    ensures |r| == |items| && forall i :: 0 <= i < |items| ==> r[i] == Encode(element, items[i])
    decreases element, 2, |items|
  {
    if items == [] then [] else [Encode(element, items[0])] + EncodeItems(element, items[1..])
  }

  function EncodeMembers(fields: seq<Field>, members: seq<Dto>): (r: map<string, Json>)
    requires |fields| == |members| && forall i :: 0 <= i < |fields| ==> Conforms(fields[i].shape, members[i])
    ensures forall k :: k in r <==> exists i :: 0 <= i < |fields| && fields[i].name == k
    decreases fields, 0, 0
  {
    if fields == [] then map[]
    else EncodeMembers(fields[1..], members[1..])[fields[0].name := Encode(fields[0].shape, members[0])]
  }

  /** Decoding ends at the first ill-formed map of texts or of documents, whose own decoder fails; any other
      misfit only leaves its place at zero. An absent member and `null` fit everywhere. */
  predicate Stops(shape: Shape, j: Json)
    decreases shape
  {
    match shape
    case LangShape => !j.JNull? && DecodeLang(j).None?
    case RichShape => !j.JNull? && !j.JObject?
    case ListShape(element) => j.JArray? && exists i :: 0 <= i < |j.items| && Stops(element, j.items[i])
    case StructShape(fields) =>
      j.JObject? && exists i :: 0 <= i < |fields| && Stops(fields[i].shape, Member(j.fields, fields[i].name))
    case _ => false
  }

  /** Members are met in the order of their names, as the marshalled body lists them. */
  predicate StopsBefore(fields: seq<Field>, m: map<string, Json>, name: string) {
    exists j :: 0 <= j < |fields| && StringLess(fields[j].name, name)
      && Stops(fields[j].shape, Member(m, fields[j].name))
  }

  /** What decoding reads for the `i`-th field: nothing, if it has ended before. */
  function ReadMember(fields: seq<Field>, m: map<string, Json>, i: nat): Json
    requires i < |fields|
  {
    if StopsBefore(fields, m, fields[i].name) then JNull else Member(m, fields[i].name)
  }

  /** The items up to the one decoding ends at. */
  function Reached(element: Shape, items: seq<Json>): (r: seq<Json>)
    ensures |r| <= |items| && forall i :: 0 <= i < |r| ==> r[i] == items[i]
    ensures (forall i :: 0 <= i < |items| ==> !Stops(element, items[i])) ==> r == items
  {
    if items == [] then []
    else if Stops(element, items[0]) then [items[0]]
    else [items[0]] + Reached(element, items[1..])
  }

  /** What does not fit, and what comes after the end of decoding, is left at its zero value. */
  function Decode(shape: Shape, j: Json): (d: Dto)
    ensures Conforms(shape, d)
    decreases shape, 1, 0
  {
    match shape
    case TextShape => Text(if j.JString? then j.text else "")
    case FlagShape => Flag(j.JBool? && j.flag)
    case LangShape => Lang(DecodeLang(j))
    case RichShape => Rich(if j.JObject? then Some(j.fields) else None)
    case ListShape(element) => if j.JArray? then List(DecodeItems(element, Reached(element, j.items))) else NilList
    case StructShape(fields) => Struct(DecodeMembers(fields, if j.JObject? then j.fields else map[]))
  }

  function DecodeLang(j: Json): Option<map<string, string>> {
    if j.JObject? && forall k :: k in j.fields ==> j.fields[k].JString? || j.fields[k].JNull?
    then Some(map k | k in j.fields :: if j.fields[k].JString? then j.fields[k].text else "")
    else None
  }

  function DecodeItems(element: Shape, items: seq<Json>): (r: seq<Dto>)
    ensures |r| == |items| && forall i :: 0 <= i < |items| ==> r[i] == Decode(element, items[i])
    ensures forall i :: 0 <= i < |items| ==> Conforms(element, r[i])
    decreases element, 2, |items|
  {
    if items == [] then [] else [Decode(element, items[0])] + DecodeItems(element, items[1..])
  }

  function DecodeMembers(fields: seq<Field>, m: map<string, Json>): (r: seq<Dto>)
    ensures |r| == |fields|
    ensures forall i :: 0 <= i < |fields| ==> r[i] == Decode(fields[i].shape, ReadMember(fields, m, i))
    ensures forall i :: 0 <= i < |fields| ==> Conforms(fields[i].shape, r[i])
    decreases fields, 0, 0
  {
    seq(|fields|, i requires 0 <= i < |fields| => Decode(fields[i].shape, ReadMember(fields, m, i)))
  }

  /* ---------- decoding, place by place ---------- */

  datatype PathStep = Named(name: string) | Item(index: nat)

  /** A map of texts, as its own decoder takes it. */
  predicate TextMap(j: Json) {
    j.JObject? && forall lang :: lang in j.fields ==> j.fields[lang].JString? || j.fields[lang].JNull?
  }

  /** The way down `path` leads to a map of texts or documents that is there and not one. */
  ghost predicate IllFormedAt(shape: Shape, j: Json, path: seq<PathStep>)
    decreases |path|
  {
    match shape
    case LangShape => path == [] && j != JNull && !TextMap(j)
    case RichShape => path == [] && j != JNull && !j.JObject?
    case ListShape(element) =>
      path != [] && path[0].Item? && j.JArray? && path[0].index < |j.items|
      && IllFormedAt(element, j.items[path[0].index], path[1..])
    case StructShape(fields) =>
      path != [] && path[0].Named? && j.JObject? && path[0].name in j.fields
      && exists i :: 0 <= i < |fields| && fields[i].name == path[0].name
                     && IllFormedAt(fields[i].shape, j.fields[path[0].name], path[1..])
    case _ => false
  }

  /** Decoding ends early exactly if some way leads to an ill-formed map. */
  lemma StopsIff(shape: Shape, j: Json)
    ensures Stops(shape, j) <==> exists path :: IllFormedAt(shape, j, path)
  {
    hide Stops, IllFormedAt;
    if Stops(shape, j) {
      var path := StoppingPath(shape, j);
      assert IllFormedAt(shape, j, path);
    } else {
      forall path ensures !IllFormedAt(shape, j, path) {
        if IllFormedAt(shape, j, path) { PathStops(shape, j, path); }
      }
    }
  }

  lemma NullNeverStops(shape: Shape)
    ensures !Stops(shape, JNull)
  {}

  lemma {:induction false} StoppingPath(shape: Shape, j: Json) returns (path: seq<PathStep>)
    requires Stops(shape, j)
    ensures IllFormedAt(shape, j, path)
    decreases shape
  {
    match shape
    case ListShape(element) =>
      var i :| 0 <= i < |j.items| && Stops(element, j.items[i]);
      var rest := StoppingPath(element, j.items[i]);
      path := [Item(i)] + rest;
    case StructShape(fields) =>
      var i :| 0 <= i < |fields| && Stops(fields[i].shape, Member(j.fields, fields[i].name));
      NullNeverStops(fields[i].shape);
      var rest := StoppingPath(fields[i].shape, Member(j.fields, fields[i].name));
      path := [Named(fields[i].name)] + rest;
    case _ =>
      path := [];
  }

  lemma {:induction false} PathStops(shape: Shape, j: Json, path: seq<PathStep>)
    requires IllFormedAt(shape, j, path)
    ensures Stops(shape, j)
    decreases |path|
  {
    match shape
    case ListShape(element) =>
      PathStops(element, j.items[path[0].index], path[1..]);
    case StructShape(fields) =>
      var i :| 0 <= i < |fields| && fields[i].name == path[0].name
        && IllFormedAt(fields[i].shape, j.fields[path[0].name], path[1..]);
      PathStops(fields[i].shape, j.fields[path[0].name], path[1..]);
    case _ =>
  }

  /** Go's zero value of a shape. */
  function Zero(shape: Shape): Dto {
    match shape
    case TextShape => Text("")
    case FlagShape => Flag(false)
    case LangShape => Lang(None)
    case RichShape => Rich(None)
    case ListShape(_) => NilList
    case StructShape(fields) => Struct(Zeros(fields))
  }

  function Zeros(fields: seq<Field>): (r: seq<Dto>)
    ensures |r| == |fields| && forall i :: 0 <= i < |fields| ==> r[i] == Zero(fields[i].shape)
  {
    if fields == [] then [] else [Zero(fields[0].shape)] + Zeros(fields[1..])
  }

  /** The JSON type a shape is decoded from. */
  predicate Fits(shape: Shape, j: Json) {
    match shape
    case TextShape => j.JString?
    case FlagShape => j.JBool?
    case LangShape => TextMap(j)
    case RichShape => j.JObject?
    case ListShape(_) => j.JArray?
    case StructShape(_) => j.JObject?
  }

  /** What is absent, `null` or of another type is left at zero. */
  lemma {:induction false} MisfitIsZero(shape: Shape, j: Json)
    requires !Fits(shape, j)
    ensures Decode(shape, j) == Zero(shape)
    decreases shape
  {
    match shape
    case StructShape(fields) =>
      forall i | 0 <= i < |fields|
        ensures Decode(fields[i].shape, ReadMember(fields, map[], i)) == Zero(fields[i].shape)
      {
        MisfitIsZero(fields[i].shape, JNull);
      }
      assert DecodeMembers(fields, map[]) == Zeros(fields);
    case _ =>
  }

  /** `n` is how far a list is read: to its first item that ends decoding, that one included, or to its end. */
  ghost predicate ReadTo(element: Shape, items: seq<Json>, n: nat) {
    && n <= |items| && (forall i :: 0 <= i < n - 1 ==> !Stops(element, items[i]))
    && (n < |items| ==> n > 0 && Stops(element, items[n - 1]))
  }

  lemma {:induction false} ReachedIs(element: Shape, items: seq<Json>)
    ensures ReadTo(element, items, |Reached(element, items)|)
  {
    hide Stops;
    if items != [] && !Stops(element, items[0]) {
      ReachedIs(element, items[1..]);
      ReadOneMore(element, items, |Reached(element, items[1..])|);
    }
  }

  lemma ReadOneMore(element: Shape, items: seq<Json>, n: nat)
    requires items != [] && !Stops(element, items[0]) && ReadTo(element, items[1..], n)
    ensures ReadTo(element, items, n + 1)
  {
    hide Stops;
    var rest := items[1..];
    forall i | 0 <= i < n ensures !Stops(element, items[i]) {
      if i > 0 { assert items[i] == rest[i - 1]; }
    }
    if n < |rest| {
      assert items[n] == rest[n - 1];
    }
  }

  /** What fits is taken over: texts, flags, maps with `null` texts as empty ones, documents; a list as far as it
      is read; and of a struct every member that no member with a smaller name keeps from being read. */
  ghost predicate TakenFrom(shape: Shape, j: Json, d: Dto) {
    match shape
    case TextShape => j.JString? && d == Text(j.text)
    case FlagShape => j.JBool? && d == Flag(j.flag)
    case LangShape =>
      && j.JObject? && d.Lang? && d.texts.Some? && d.texts.value.Keys == j.fields.Keys
      && forall lang :: lang in j.fields ==>
           d.texts.value[lang] == if j.fields[lang].JString? then j.fields[lang].text else ""
    case RichShape => j.JObject? && d == Rich(Some(j.fields))
    case ListShape(element) =>
      && j.JArray? && d.List? && ReadTo(element, j.items, |d.items|)
      && forall i :: 0 <= i < |d.items| ==> d.items[i] == Decode(element, j.items[i])
    case StructShape(fields) =>
      && j.JObject? && d.Struct? && |d.members| == |fields|
      && forall i :: 0 <= i < |fields| ==>
           d.members[i] ==
             if fields[i].name in j.fields && !HiddenMember(fields, j.fields, fields[i].name)
             then Decode(fields[i].shape, j.fields[fields[i].name]) else Zero(fields[i].shape)
  }

  /** Some member of the form with a smaller name is stored, and holds an ill-formed map. */
  ghost predicate HiddenMember(fields: seq<Field>, m: map<string, Json>, name: string) {
    exists i, path :: 0 <= i < |fields| && fields[i].name in m && StringLess(fields[i].name, name)
      && IllFormedAt(fields[i].shape, m[fields[i].name], path)
  }

  lemma HiddenIff(fields: seq<Field>, m: map<string, Json>, name: string)
    ensures StopsBefore(fields, m, name) <==> HiddenMember(fields, m, name)
  {
    hide StringLess, Stops, IllFormedAt;
    forall i | 0 <= i < |fields|
      ensures Stops(fields[i].shape, Member(m, fields[i].name)) ==> fields[i].name in m
      ensures Stops(fields[i].shape, Member(m, fields[i].name)) <==>
        exists path :: IllFormedAt(fields[i].shape, Member(m, fields[i].name), path)
    {
      StopsIff(fields[i].shape, Member(m, fields[i].name));
      NullNeverStops(fields[i].shape);
    }
    if StopsBefore(fields, m, name) {
      var i :| 0 <= i < |fields| && StringLess(fields[i].name, name)
        && Stops(fields[i].shape, Member(m, fields[i].name));
      var path :| IllFormedAt(fields[i].shape, Member(m, fields[i].name), path);
    }
  }

  lemma FitIsTaken(shape: Shape, j: Json)
    requires Fits(shape, j)
    ensures TakenFrom(shape, j, Decode(shape, j))
  {
    match shape
    case ListShape(element) =>
      ReachedIs(element, j.items);
    case StructShape(fields) =>
      forall i | 0 <= i < |fields|
        ensures Decode(shape, j).members[i] ==
          if fields[i].name in j.fields && !HiddenMember(fields, j.fields, fields[i].name)
          then Decode(fields[i].shape, j.fields[fields[i].name]) else Zero(fields[i].shape)
      {
        HiddenIff(fields, j.fields, fields[i].name);
        MisfitIsZero(fields[i].shape, JNull);
      }
    case _ =>
  }

  /** Decoding into untyped values turns every number into a float. */
  function Floats(f64: real -> real, j: Json): Json {
    match j
    case JNumber(n) => JNumber(f64(n))
    case JArray(items) => JArray(FloatItems(f64, items))
    case JObject(m) => JObject(map k | k in m :: Floats(f64, m[k]))
    case _ => j
  }

  function FloatItems(f64: real -> real, items: seq<Json>): (r: seq<Json>)
    ensures |r| == |items| && forall i :: 0 <= i < |items| ==> r[i] == Floats(f64, items[i])
  {
    if items == [] then [] else [Floats(f64, items[0])] + FloatItems(f64, items[1..])
  }

  /* ---------- what a load returns of what was saved ---------- */

  /** The form with the numbers of its rich text turned into floats. */
  function FloatDto(f64: real -> real, d: Dto): Dto
    decreases d, 1
  {
    match d
    case Rich(Some(docs)) => Rich(Some(map k | k in docs :: Floats(f64, docs[k])))
    case List(items) => List(FloatDtos(f64, items))
    case Struct(members) => Struct(FloatDtos(f64, members))
    case _ => d
  }

  function FloatDtos(f64: real -> real, ds: seq<Dto>): (r: seq<Dto>)
    ensures |r| == |ds| && forall i :: 0 <= i < |ds| ==> r[i] == FloatDto(f64, ds[i])
    decreases ds, 0
  {
    if ds == [] then [] else [FloatDto(f64, ds[0])] + FloatDtos(f64, ds[1..])
  }

  lemma {:induction false} MembersAt(fields: seq<Field>, members: seq<Dto>, i: nat)
    requires DistinctNames(StructShape(fields)) && Conforms(StructShape(fields), Struct(members)) && i < |fields|
    ensures EncodeMembers(fields, members)[fields[i].name] == Encode(fields[i].shape, members[i])
    decreases |fields|
  {
    if i > 0 {
      var rest := fields[1..];
      assert forall k :: 0 <= k < |rest| ==> rest[k] == fields[k + 1] && members[1..][k] == members[k + 1];
      MembersAt(rest, members[1..], i - 1);
    }
  }

  lemma LangRoundTrip(f64: real -> real, texts: map<string, string>)
    ensures DecodeLang(Floats(f64, JObject(map k | k in texts :: JString(texts[k])))) == Some(texts)
  {
    var encoded := map k | k in texts :: JString(texts[k]);
    var j := Floats(f64, JObject(encoded));
    assert forall k :: k in j.fields ==> j.fields[k] == Floats(f64, encoded[k]) == JString(texts[k]);
    assert DecodeLang(j).Some? && DecodeLang(j).value == texts;
  }

  lemma RichRoundTrip(f64: real -> real, docs: map<string, Json>)
    ensures Decode(RichShape, Floats(f64, JObject(docs))) == FloatDto(f64, Rich(Some(docs)))
  {}

  lemma StructEncoded(f64: real -> real, fields: seq<Field>, members: seq<Dto>)
    requires Conforms(StructShape(fields), Struct(members))
    ensures Encode(StructShape(fields), Struct(members)) == JObject(EncodeMembers(fields, members))
    ensures FloatDto(f64, Struct(members)) == Struct(FloatDtos(f64, members))
  {
    hide EncodeMembers, FloatDtos, Conforms;
  }

  lemma StructDecoded(fields: seq<Field>, m: map<string, Json>)
    ensures Decode(StructShape(fields), JObject(m)) == Struct(DecodeMembers(fields, m))
  {
    hide DecodeMembers;
  }

  /** A struct is decoded member by member from the object of its floated members. */
  lemma StructRoundTrip(f64: real -> real, fields: seq<Field>, members: seq<Dto>, saved: map<string, Json>)
    requires Conforms(StructShape(fields), Struct(members))
    requires Floats(f64, JObject(EncodeMembers(fields, members))) == JObject(saved)
    requires DecodeMembers(fields, saved) == FloatDtos(f64, members)
    ensures Decode(StructShape(fields), Floats(f64, Encode(StructShape(fields), Struct(members)))) ==
      FloatDto(f64, Struct(members))
  {
    hide *;
    StructEncoded(f64, fields, members);
    StructDecoded(fields, saved);
  }

  lemma ListRoundTrip(f64: real -> real, element: Shape, items: seq<Dto>)
    requires forall i :: 0 <= i < |items| ==> Conforms(element, items[i])
    requires forall i :: 0 <= i < |items| ==>
      Decode(element, Floats(f64, Encode(element, items[i]))) == FloatDto(f64, items[i])
    ensures DecodeItems(element, FloatItems(f64, EncodeItems(element, items))) == FloatDtos(f64, items)
  {
    hide *;
  }

  lemma ScalarRoundTrip(f64: real -> real, shape: Shape, d: Dto)
    requires Conforms(shape, d) && (d.Text? || d.Flag? || d.NilList? || d == Lang(None) || d == Rich(None))
    ensures Decode(shape, Floats(f64, Encode(shape, d))) == FloatDto(f64, d)
  {}

  lemma LangShapeRoundTrip(f64: real -> real, texts: map<string, string>)
    ensures Decode(LangShape, Floats(f64, Encode(LangShape, Lang(Some(texts))))) == Lang(Some(texts))
  {
    hide DecodeLang, Floats;
    LangRoundTrip(f64, texts);
  }

  /** Round trip of one value: encoding, turning numbers into floats and decoding gives the value with
      its numbers turned into floats. */
  lemma {:induction false} DecodeOfEncode(f64: real -> real, shape: Shape, d: Dto)
    requires Conforms(shape, d) && DistinctNames(shape)
    ensures Decode(shape, Floats(f64, Encode(shape, d))) == FloatDto(f64, d)
    decreases shape
  {
    match d
    case Lang(Some(texts)) =>
      LangShapeRoundTrip(f64, texts);
    case Rich(Some(docs)) =>
      RichRoundTrip(f64, docs);
    case List(items) =>
      forall i | 0 <= i < |items| { EncodedNeverStops(f64, shape.element, items[i]); }
      ListOfShape(f64, shape, items);
      hide Decode, Floats, Encode, FloatDto;
      forall i | 0 <= i < |items|
        ensures Decode(shape.element, Floats(f64, Encode(shape.element, items[i]))) == FloatDto(f64, items[i])
      {
        DecodeOfEncode(f64, shape.element, items[i]);
      }
      ListRoundTrip(f64, shape.element, items);
    case Struct(members) =>
      var saved := Floats(f64, JObject(EncodeMembers(shape.fields, members))).fields;
      MembersRoundTrip(f64, shape.fields, members, map[]);
      assert map[] + saved == saved;
      StructRoundTrip(f64, shape.fields, members, saved);
    case _ =>
      ScalarRoundTrip(f64, shape, d);
  }

  /** What was encoded never ends decoding. */
  lemma {:induction false} EncodedNeverStops(f64: real -> real, shape: Shape, d: Dto)
    requires Conforms(shape, d) && DistinctNames(shape)
    ensures !Stops(shape, Floats(f64, Encode(shape, d)))
    decreases shape
  {
    match d
    case Lang(Some(texts)) =>
      LangRoundTrip(f64, texts);
    case List(items) =>
      var encoded := FloatItems(f64, EncodeItems(shape.element, items));
      forall i | 0 <= i < |items| ensures !Stops(shape.element, encoded[i]) {
        EncodedNeverStops(f64, shape.element, items[i]);
      }
    case Struct(members) =>
      var saved := Floats(f64, JObject(EncodeMembers(shape.fields, members))).fields;
      forall i | 0 <= i < |members| ensures !Stops(shape.fields[i].shape, Member(saved, shape.fields[i].name)) {
        MemberSaved(f64, shape.fields, members, map[], i);
        assert map[] + saved == saved;
        EncodedNeverStops(f64, shape.fields[i].shape, members[i]);
      }
    case _ =>
  }

  lemma ListOfShape(f64: real -> real, shape: Shape, items: seq<Dto>)
    requires Conforms(shape, List(items))
    requires forall i :: 0 <= i < |items| ==> !Stops(shape.element, Floats(f64, Encode(shape.element, items[i])))
    ensures Decode(shape, Floats(f64, Encode(shape, List(items)))) ==
      List(DecodeItems(shape.element, FloatItems(f64, EncodeItems(shape.element, items))))
    ensures FloatDto(f64, List(items)) == List(FloatDtos(f64, items))
  {
    hide DecodeItems, FloatItems, EncodeItems, FloatDtos, Reached, Stops;
    var encoded := FloatItems(f64, EncodeItems(shape.element, items));
    assert forall i :: 0 <= i < |items| ==> encoded[i] == Floats(f64, Encode(shape.element, items[i]));
    assert Reached(shape.element, encoded) == encoded;
  }

  lemma MemberSaved(f64: real -> real, fields: seq<Field>, members: seq<Dto>, base: map<string, Json>, i: nat)
    requires Conforms(StructShape(fields), Struct(members)) && DistinctNames(StructShape(fields)) && i < |fields|
    ensures var saved := Floats(f64, JObject(EncodeMembers(fields, members))).fields;
      Member(base + saved, fields[i].name) == Floats(f64, Encode(fields[i].shape, members[i]))
  {
    MembersAt(fields, members, i);
    hide EncodeMembers, Encode, DistinctNames;
  }

  /** The members survive a merge into any object. */
  lemma {:induction false} MembersRoundTrip(f64: real -> real, fields: seq<Field>, members: seq<Dto>,
                                            base: map<string, Json>)
    requires Conforms(StructShape(fields), Struct(members)) && DistinctNames(StructShape(fields))
    ensures var saved := Floats(f64, JObject(EncodeMembers(fields, members))).fields;
      DecodeMembers(fields, base + saved) == FloatDtos(f64, members)
    decreases fields
  {
    hide EncodeMembers, DecodeMembers, FloatDtos, Encode, Decode, Member, FloatDto, Stops, StringLess;
    var saved := Floats(f64, JObject(EncodeMembers(fields, members))).fields;
    forall i | 0 <= i < |fields|
      ensures Member(base + saved, fields[i].name) == Floats(f64, Encode(fields[i].shape, members[i]))
      ensures !Stops(fields[i].shape, Member(base + saved, fields[i].name))
    {
      MemberSaved(f64, fields, members, base, i);
      EncodedNeverStops(f64, fields[i].shape, members[i]);
    }
    forall i | 0 <= i < |fields|
      ensures Decode(fields[i].shape, ReadMember(fields, base + saved, i)) == FloatDto(f64, members[i])
    {
      DecodeOfEncode(f64, fields[i].shape, members[i]);
    }
  }

  /* ---------- filling in missing languages ---------- */

  const LANGUAGES := ["th", "en", "de"]

  function FilledFrom<T>(langs: seq<string>, m: map<string, T>, missing: T): map<string, T> {
    (map lang | lang in langs :: missing) + m
  }

  function Filled<T>(m: map<string, T>, missing: T): map<string, T> {
    FilledFrom(LANGUAGES, m, missing)
  }

  lemma FillStep<T>(langs: seq<string>, i: nat, m: map<string, T>, missing: T)
    requires i < |langs|
    ensures var filled := FilledFrom(langs[..i], m, missing);
      FilledFrom(langs[..i + 1], m, missing) == if langs[i] in filled then filled else filled[langs[i] := missing]
  {
    assert langs[..i + 1] == langs[..i] + [langs[i]];
  }

  /** What loading does to the language maps of a decoded form. */
  function Normalize(d: Dto): Dto
    decreases d, 1
  {
    match d
    case Lang(texts) => Lang(Some(Filled(if texts.Some? then texts.value else map[], "")))
    case Rich(docs) => Rich(Some(Filled(if docs.Some? then docs.value else map[], JNull)))
    case List(items) => List(NormalizeAll(items))
    case Struct(members) => Struct(NormalizeAll(members))
    case _ => d
  }

  function NormalizeAll(ds: seq<Dto>): (r: seq<Dto>)
    ensures |r| == |ds| && forall i :: 0 <= i < |ds| ==> r[i] == Normalize(ds[i])
    decreases ds, 0
  {
    if ds == [] then [] else [Normalize(ds[0])] + NormalizeAll(ds[1..])
  }

  /** `done` has the keys of `given` with their values, and the three languages, where new with `missing`. */
  ghost predicate Completes<T>(given: Option<map<string, T>>, done: map<string, T>, missing: T) {
    var m := if given.Some? then given.value else map[];
    && done.Keys == m.Keys + {"th", "en", "de"}
    && forall key :: key in done ==> done[key] == if key in m then m[key] else missing
  }

  /** What loading may do to a decoded form: every map of texts or documents, wherever it is in lists and
      structs, is made complete; lengths, texts and flags stay. */
  ghost predicate Completed(d: Dto, loaded: Dto)
    decreases d
  {
    match d
    case Lang(texts) => loaded.Lang? && loaded.texts.Some? && Completes(texts, loaded.texts.value, "")
    case Rich(docs) => loaded.Rich? && loaded.docs.Some? && Completes(docs, loaded.docs.value, JNull)
    case List(items) =>
      && loaded.List? && |loaded.items| == |items|
      && forall i :: 0 <= i < |items| ==> Completed(items[i], loaded.items[i])
    case Struct(members) =>
      && loaded.Struct? && |loaded.members| == |members|
      && forall i :: 0 <= i < |members| ==> Completed(members[i], loaded.members[i])
    case Text(_) => loaded == d
    case Flag(_) => loaded == d
    case NilList => loaded == d
  }

  lemma FilledCompletes<T>(given: Option<map<string, T>>, missing: T)
    ensures Completes(given, Filled(if given.Some? then given.value else map[], missing), missing)
  {
    assert LANGUAGES[0] == "th" && LANGUAGES[1] == "en" && LANGUAGES[2] == "de";
  }

  /** Loading does just that, to every form. */
  lemma {:induction false} NormalizeCompletes(d: Dto)
    ensures Completed(d, Normalize(d))
    decreases d
  {
    match d
    case Lang(texts) => FilledCompletes(texts, "");
    case Rich(docs) => FilledCompletes(docs, JNull);
    case List(items) => forall i | 0 <= i < |items| { NormalizeCompletes(items[i]); }
    case Struct(members) => forall i | 0 <= i < |members| { NormalizeCompletes(members[i]); }
    case _ =>
  }

  /** What is stored after a save: the form's members over the members already there. */
  function Merged(f64: real -> real, shape: Shape, base: map<string, Json>, d: Dto): map<string, Json>
    requires shape.StructShape? && Conforms(shape, d)
  {
    base + Floats(f64, Encode(shape, d)).fields
  }

  /** What a load returns of a stored body; a nil body leaves the zero form. */
  function Loaded(shape: Shape, body: Option<map<string, Json>>): Dto {
    Normalize(Decode(shape, Stored(body)))
  }

  function Stored(body: Option<map<string, Json>>): Json {
    match body case None => JNull case Some(m) => JObject(m)
  }

  /** Save and load: the form comes back with numbers as floats and missing languages filled in, whatever
      was stored before; and that is the saved form exactly when its numbers are floats already. */
  lemma SavedFormLoads(f64: real -> real, shape: Shape, base: map<string, Json>, d: Dto)
    requires shape.StructShape? && Conforms(shape, d) && DistinctNames(shape)
    ensures Loaded(shape, Some(Merged(f64, shape, base, d))) == Normalize(FloatDto(f64, d))
    ensures Loaded(shape, Some(Merged(f64, shape, base, d))) == Normalize(d) <==> FloatDto(f64, d) == d
  {
    MembersRoundTrip(f64, shape.fields, d.members, base);
    if Normalize(FloatDto(f64, d)) == Normalize(d) {
      NormalizeKeepsFloats(f64, d);
    }
  }

  /** Filling in languages hides no change of a number. */
  lemma {:induction false} NormalizeKeepsFloats(f64: real -> real, d: Dto)
    requires Normalize(FloatDto(f64, d)) == Normalize(d)
    ensures FloatDto(f64, d) == d
    decreases d
  {
    match d
    case Rich(Some(docs)) =>
      var floats := map k | k in docs :: Floats(f64, docs[k]);
      assert Filled(floats, JNull) == Filled(docs, JNull);
      forall k | k in docs ensures floats[k] == docs[k] {
        assert Filled(floats, JNull)[k] == Filled(docs, JNull)[k];
      }
      assert floats == docs;
    case List(items) =>
      AllKeepFloats(f64, items);
    case Struct(members) =>
      AllKeepFloats(f64, members);
    case _ =>
  }

  lemma {:induction false} AllKeepFloats(f64: real -> real, ds: seq<Dto>)
    requires NormalizeAll(FloatDtos(f64, ds)) == NormalizeAll(ds)
    ensures FloatDtos(f64, ds) == ds
    decreases ds
  {
    forall i | 0 <= i < |ds| ensures FloatDto(f64, ds[i]) == ds[i] {
      assert NormalizeAll(FloatDtos(f64, ds))[i] == NormalizeAll(ds)[i];
      NormalizeKeepsFloats(f64, ds[i]);
    }
  }

  /** Members outside the form keep their value, and a second save of the form changes nothing. */
  lemma SaveKeepsOtherMembers(f64: real -> real, shape: Shape, base: map<string, Json>, d: Dto, key: string)
    requires shape.StructShape? && Conforms(shape, d)
    ensures (forall i :: 0 <= i < |shape.fields| ==> shape.fields[i].name != key) ==>
      (key in Merged(f64, shape, base, d) <==> key in base)
      && (key in base ==> Merged(f64, shape, base, d)[key] == base[key])
    ensures Merged(f64, shape, Merged(f64, shape, base, d), d) == Merged(f64, shape, base, d)
  {}

  lemma {:induction false} DecodedFloats(f64: real -> real, shape: Shape, j: Json)
    requires Floats(f64, j) == j
    ensures FloatDto(f64, Decode(shape, j)) == Decode(shape, j)
    decreases shape
  {
    match shape
    case RichShape =>
      if j.JObject? {
        assert forall k :: k in j.fields ==> Floats(f64, j).fields[k] == Floats(f64, j.fields[k]);
      }
    case ListShape(element) =>
      if j.JArray? {
        var items := DecodeItems(element, Reached(element, j.items));
        forall i | 0 <= i < |items| ensures FloatDto(f64, items[i]) == items[i] {
          assert FloatItems(f64, j.items)[i] == j.items[i];
          DecodedFloats(f64, element, j.items[i]);
        }
        assert FloatDtos(f64, items) == items;
      }
    case StructShape(fields) =>
      var m := if j.JObject? then j.fields else map[];
      var members := DecodeMembers(fields, m);
      forall i | 0 <= i < |members| ensures FloatDto(f64, members[i]) == members[i] {
        if fields[i].name in m {
          assert Floats(f64, j).fields[fields[i].name] == Floats(f64, m[fields[i].name]);
        }
        DecodedFloats(f64, fields[i].shape, ReadMember(fields, m, i));
      }
      assert FloatDtos(f64, members) == members;
    case _ =>
  }

  lemma FilledTwice<T>(m: map<string, T>, missing: T)
    ensures Filled(Filled(m, missing), missing) == Filled(m, missing)
  {}

  lemma NormalizedRich(f64: real -> real, docs: map<string, Json>)
    requires forall k :: k in docs ==> Floats(f64, docs[k]) == docs[k]
    ensures FloatDto(f64, Rich(Some(Filled(docs, JNull)))) == Rich(Some(Filled(docs, JNull)))
  {
    var filled := Filled(docs, JNull);
    assert (map k | k in filled :: Floats(f64, filled[k])) == filled;
  }

  /** Filling in languages keeps shape and floats, and is done once and for all. */
  lemma {:induction false} NormalizedForm(f64: real -> real, shape: Shape, d: Dto)
    requires Conforms(shape, d) && FloatDto(f64, d) == d
    ensures Conforms(shape, Normalize(d)) && FloatDto(f64, Normalize(d)) == Normalize(d)
    ensures Normalize(Normalize(d)) == Normalize(d)
    decreases d
  {
    match d
    case Rich(docs) =>
      var m := if docs.Some? then docs.value else map[];
      if docs.Some? {
        assert forall k :: k in m ==> FloatDto(f64, d).docs.value[k] == Floats(f64, m[k]);
      }
      NormalizedRich(f64, m);
      FilledTwice(m, JNull);
    case Lang(texts) =>
      FilledTwice(if texts.Some? then texts.value else map[], "");
    case List(items) =>
      forall i | 0 <= i < |items|
        ensures Conforms(shape.element, Normalize(items[i]))
          && FloatDto(f64, Normalize(items[i])) == Normalize(items[i])
        ensures Normalize(Normalize(items[i])) == Normalize(items[i])
      {
        assert FloatDtos(f64, items)[i] == items[i];
        NormalizedForm(f64, shape.element, items[i]);
      }
      NormalizedList(f64, items);
    case Struct(members) =>
      forall i | 0 <= i < |members|
        ensures Conforms(shape.fields[i].shape, Normalize(members[i]))
          && FloatDto(f64, Normalize(members[i])) == Normalize(members[i])
        ensures Normalize(Normalize(members[i])) == Normalize(members[i])
      {
        assert FloatDtos(f64, members)[i] == members[i];
        NormalizedForm(f64, shape.fields[i].shape, members[i]);
      }
      NormalizedList(f64, members);
    case _ =>
  }

  lemma NormalizedList(f64: real -> real, ds: seq<Dto>)
    requires forall i :: 0 <= i < |ds| ==> FloatDto(f64, Normalize(ds[i])) == Normalize(ds[i])
    requires forall i :: 0 <= i < |ds| ==> Normalize(Normalize(ds[i])) == Normalize(ds[i])
    ensures FloatDtos(f64, NormalizeAll(ds)) == NormalizeAll(ds)
    ensures NormalizeAll(NormalizeAll(ds)) == NormalizeAll(ds)
  {}

  /** Each member of a loaded form is what is stored under its name, or, if and only if a member with a smaller
      name ends decoding, as if nothing were. */
  lemma LoadedMember(shape: Shape, base: map<string, Json>, i: nat)
    requires shape.StructShape? && i < |shape.fields|
    ensures var d, field := Loaded(shape, Some(base)), shape.fields[i];
      && d.Struct? && |d.members| == |shape.fields|
      && d.members[i] == Normalize(
           Decode(field.shape, if StopsBefore(shape.fields, base, field.name) then JNull else Member(base, field.name)))
  {
    hide StopsBefore, Member;
    assert Decode(shape, JObject(base)) == Struct(DecodeMembers(shape.fields, base));
  }

  /** A save repairs the page: decoding what it leaves does not end early, whatever was stored before. */
  lemma SaveRepairs(f64: real -> real, shape: Shape, base: map<string, Json>, d: Dto, i: nat)
    requires shape.StructShape? && Conforms(shape, d) && DistinctNames(shape) && i < |shape.fields|
    ensures !StopsBefore(shape.fields, Merged(f64, shape, base, d), shape.fields[i].name)
  {
    hide StringLess, Stops, Encode, Conforms, DistinctNames;
    forall j | 0 <= j < |shape.fields|
      ensures !Stops(shape.fields[j].shape, Member(Merged(f64, shape, base, d), shape.fields[j].name))
    {
      SavedMember(f64, shape, base, d, j);
    }
  }

  lemma SavedMember(f64: real -> real, shape: Shape, base: map<string, Json>, d: Dto, i: nat)
    requires shape.StructShape? && Conforms(shape, d) && DistinctNames(shape) && i < |shape.fields|
    ensures !Stops(shape.fields[i].shape, Member(Merged(f64, shape, base, d), shape.fields[i].name))
  {
    MemberSaved(f64, shape.fields, d.members, base, i);
    EncodedNeverStops(f64, shape.fields[i].shape, d.members[i]);
    hide Stops, Member;
  }

  /** Load, save, load: a page whose stored numbers are floats, as every page read from the database is,
      loads the same after what was loaded is saved back. */
  lemma LoadSaveLoad(f64: real -> real, shape: Shape, base: map<string, Json>)
    requires shape.StructShape? && DistinctNames(shape) && Floats(f64, JObject(base)) == JObject(base)
    ensures Conforms(shape, Loaded(shape, Some(base)))
    ensures Loaded(shape, Some(Merged(f64, shape, base, Loaded(shape, Some(base))))) == Loaded(shape, Some(base))
  {
    var d := Decode(shape, JObject(base));
    DecodedFloats(f64, shape, JObject(base));
    NormalizedForm(f64, shape, d);
    SavedFormLoads(f64, shape, base, Normalize(d));
  }

  /* ---------- the forms ---------- */

  const INTRO := StructShape([Field("heading", LangShape), Field("description", LangShape),
                              Field("founded", LangShape), Field("location", LangShape)])
  const OBJECTIVE := StructShape([Field("heading", LangShape), Field("subtitle", LangShape),
                                  Field("content", RichShape)])
  const SECTION := StructShape([Field("heading", LangShape), Field("content", RichShape)])
  const BUILDING := StructShape([Field("name", LangShape), Field("description", LangShape)])
  const BUILDINGS := StructShape([Field("heading", LangShape), Field("items", ListShape(BUILDING))])
  const SANGHA := StructShape([Field("heading", LangShape), Field("mission", LangShape), Field("content", RichShape)])

  /** The About page's form. */
  const ABOUT := StructShape([Field("intro", INTRO), Field("objective", OBJECTIVE), Field("administration", SECTION),
                              Field("history", SECTION), Field("buildings", BUILDINGS), Field("sangha", SANGHA)])

  lemma PartsHaveDistinctNames()
    ensures DistinctNames(INTRO) && DistinctNames(OBJECTIVE) && DistinctNames(SECTION)
  {
    assert "heading"[0] == 'h' && "founded"[0] == 'f' && "content"[0] == 'c';
  }

  lemma MorePartsHaveDistinctNames()
    ensures DistinctNames(BUILDINGS) && DistinctNames(SANGHA)
  {
    assert "heading"[0] == 'h' && "content"[0] == 'c' && "mission"[0] == 'm';
    assert DistinctNames(BUILDING);
  }

  function Names(shape: Shape): seq<string> {
    if shape.StructShape? then seq(|shape.fields|, i requires 0 <= i < |shape.fields| => shape.fields[i].name) else []
  }

  /** The About page's members, by name and kind. */
  lemma AboutIs()
    ensures Names(ABOUT) == ["intro", "objective", "administration", "history", "buildings", "sangha"]
    ensures Names(INTRO) == ["heading", "description", "founded", "location"]
    ensures Names(OBJECTIVE) == ["heading", "subtitle", "content"] && Names(SECTION) == ["heading", "content"]
    ensures Names(BUILDINGS) == ["heading", "items"] && Names(BUILDING) == ["name", "description"]
    ensures Names(SANGHA) == ["heading", "mission", "content"]
  {}

  lemma AboutHasDistinctNames()
    ensures DistinctNames(ABOUT)
  {
    PartsHaveDistinctNames();
    MorePartsHaveDistinctNames();
    assert "objective"[0] == 'o' && "buildings"[0] == 'b';
  }

  /** It happens: a section whose content is no object loads without its heading. */
  lemma IllFormedContentHidesHeading(heading: map<string, Json>)
    ensures var base := map["content" := JBool(true), "heading" := JObject(heading)];
      Loaded(SECTION, Some(base)) == Struct([Lang(Some(Filled(map[], ""))), Rich(Some(Filled(map[], JNull)))])
  {
    var base := map["content" := JBool(true), "heading" := JObject(heading)];
    ContentBeforeHeading();
    hide StringLess;
    assert Member(base, "content") == JBool(true);
    assert SECTION.fields[1].name == "content" && Stops(SECTION.fields[1].shape, Member(base, "content"));
    assert StopsBefore(SECTION.fields, base, "heading");
    LoadedMember(SECTION, base, 0);
    LoadedMember(SECTION, base, 1);
    hide StopsBefore, Stops, Member, Filled, Loaded;
    ZeroMaps();
  }

  lemma ContentBeforeHeading()
    ensures StringLess("content", "heading") && "content" != "heading"
  {
    assert "content"[0] == 'c' && "heading"[0] == 'h';
  }

  lemma ZeroMaps()
    ensures Normalize(Decode(LangShape, JNull)) == Lang(Some(Filled(map[], "")))
    ensures Normalize(Decode(RichShape, JNull)) == Rich(Some(Filled(map[], JNull)))
    ensures Normalize(Decode(RichShape, JBool(true))) == Rich(Some(Filled(map[], JNull)))
  {
    hide Filled;
  }

  /* ---------- pages, with maps shared by reference ---------- */

  class LangMap {
    var m: map<string, string>

    constructor ()
      ensures m == map[]
    {
      m := map[];
    }
  }

  class RichMap {
    var m: map<string, Json>

    constructor ()
      ensures m == map[]
    {
      m := map[];
    }
  }

  class BodyMap {
    var m: map<string, Json>

    constructor ()
      ensures m == map[]
    {
      m := map[];
    }
  }

  class ContentPage {
    var title: LangMap?
    var description: LangMap?
    var seo: Json
    var body: BodyMap?
    var publishedTitle: LangMap?
    var publishedDescription: LangMap?
    var publishedSeo: Json
    var publishedBody: BodyMap?
    var publishedAt: Option<int>
    var updatedAt: int

    constructor (updated: int)
    {
      title, description, body, publishedTitle, publishedDescription, publishedBody :=
        null, null, null, null, null, null;
      seo, publishedSeo, publishedAt, updatedAt := JNull, JNull, None, updated;
    }

    /** The stored body a load of the draft, or of the published snapshot, decodes. */
    ghost function Draft(): Option<map<string, Json>>
      reads this, body
    {
      if body == null then None else Some(body.m)
    }

    ghost function Published(): Option<map<string, Json>>
      reads this, publishedBody
    {
      if publishedBody == null then None else Some(publishedBody.m)
    }
  }

  datatype Content = Content(title: LangMap, description: LangMap, seo: Json, body: Dto, updatedAt: int)
  datatype Request = Request(title: LangMap?, description: LangMap?, seo: Json, body: Dto)

  ghost function Texts(m: LangMap?): map<string, string>
    reads m
  {
    if m == null then map[] else m.m
  }

  /** Missing languages are written into the given map; a nil map is replaced by a new one. */
  method NormalizeMultiLang(given: LangMap?) returns (r: LangMap)
    modifies given
    ensures if given == null then fresh(r) else r == given
    ensures r.m == Filled(old(Texts(given)), "") && Completes(Some(old(Texts(given))), r.m, "")
  {
    FilledCompletes(Some(Texts(given)), "");
    if given == null {
      r := new LangMap();
    } else {
      r := given;
    }
    ghost var before := r.m;
    var langs := LANGUAGES;
    for i := 0 to |langs|
      invariant r.m == FilledFrom(langs[..i], before, "")
    {
      FillStep(langs, i, before, "");
      if langs[i] !in r.m {
        r.m := r.m[langs[i] := ""];
      }
    }
    assert langs[..|langs|] == langs;
  }

  ghost function Docs(m: RichMap?): map<string, Json>
    reads m
  {
    if m == null then map[] else m.m
  }

  /** The same for rich text, where a missing language becomes `null`. */
  method NormalizeRichText(given: RichMap?) returns (r: RichMap)
    modifies given
    ensures if given == null then fresh(r) else r == given
    ensures r.m == Filled(old(Docs(given)), JNull) && Completes(Some(old(Docs(given))), r.m, JNull)
  {
    FilledCompletes(Some(Docs(given)), JNull);
    if given == null {
      r := new RichMap();
    } else {
      r := given;
    }
    ghost var before := r.m;
    var langs := LANGUAGES;
    for i := 0 to |langs|
      invariant r.m == FilledFrom(langs[..i], before, JNull)
    {
      FillStep(langs, i, before, JNull);
      if langs[i] !in r.m {
        r.m := r.m[langs[i] := JNull];
      }
    }
    assert langs[..|langs|] == langs;
  }

  /** The merge loop: the request's members are written over those of `target`. */
  method MergeInto(target: BodyMap, members: map<string, Json>)
    modifies target
    ensures target.m == old(target.m) + members
  {
    var keys := members.Keys;
    while keys != {}
      invariant keys <= members.Keys
      invariant target.m == old(target.m) + map k | k in members && k !in keys :: members[k]
      decreases keys
    {
      var k :| k in keys;
      target.m := target.m[k := members[k]];
      keys := keys - {k};
    }
  }

  lemma FormIsObject(f64: real -> real, shape: Shape, d: Dto)
    requires shape.StructShape? && Conforms(shape, d)
    ensures Encode(shape, d).JObject? && Floats(f64, Encode(shape, d)).JObject?
  {}

  /** Saving a form: title and description are normalised and shared with the request, the body is merged
      into the page's own map, or into a new one if it has none. The published snapshot is touched only
      if it is that very map. */
  method Apply(f64: real -> real, shape: Shape, page: ContentPage, req: Request)
    requires shape.StructShape? && Conforms(shape, req.body)
    modifies page, page.body, req.title, req.description
    ensures page.title != null && page.title.m == Filled(old(Texts(req.title)), "")
    ensures page.description != null && page.description.m == Filled(old(Texts(req.description)), "")
    ensures if req.title == null then fresh(page.title) else page.title == req.title
    ensures if req.description == null then fresh(page.description) else page.description == req.description
    ensures page.seo == req.seo
    ensures page.Draft() == Some(
        Merged(f64, shape, if old(page.Draft()).Some? then old(page.Draft()).value else map[], req.body))
    ensures old(page.body) != null ==> page.body == old(page.body)
    ensures page.publishedBody == old(page.publishedBody) && page.publishedSeo == old(page.publishedSeo)
    ensures page.publishedTitle == old(page.publishedTitle)
      && page.publishedDescription == old(page.publishedDescription)
    ensures page.publishedAt == old(page.publishedAt) && page.updatedAt == old(page.updatedAt)
    ensures page.Published() ==
      if old(page.body) != null && old(page.body) == old(page.publishedBody) then page.Draft()
        else old(page.Published())
  {
    hide Filled, FilledFrom, Completes, Conforms, Merged;
    FilledTwice(Texts(req.title), "");
    page.title := NormalizeMultiLang(req.title);
    page.description := NormalizeMultiLang(req.description);
    page.seo := req.seo;
    MergeBody(f64, shape, page, req.body);
  }

  /** The second half of a save, which merges the body. */
  method MergeBody(f64: real -> real, shape: Shape, page: ContentPage, d: Dto)
    requires shape.StructShape? && Conforms(shape, d)
    modifies page`body, page.body
    ensures page.Draft() == Some(
        Merged(f64, shape, if old(page.Draft()).Some? then old(page.Draft()).value else map[], d))
    ensures if old(page.body) != null then page.body == old(page.body) else fresh(page.body)
  {
    hide Conforms, EncodeItems, FloatItems;
    FormIsObject(f64, shape, d);
    var mergedBody: BodyMap;
    if page.body != null {
      mergedBody := page.body;
    } else {
      mergedBody := new BodyMap();
    }
    MergeInto(mergedBody, Floats(f64, Encode(shape, d)).fields);
    page.body := mergedBody;
  }

  /** Loading the draft. */
  method FromPage(shape: Shape, page: ContentPage) returns (content: Content)
    modifies page.title, page.description
    ensures content.title.m == Filled(old(Texts(page.title)), "")
    ensures content.description.m == Filled(old(Texts(page.description)), "")
    ensures page.title != null ==> content.title == page.title
    ensures page.description != null ==> content.description == page.description
    ensures content.seo == page.seo && content.updatedAt == page.updatedAt
    ensures content.body == Loaded(shape, page.Draft())
    ensures Completed(Decode(shape, Stored(page.Draft())), content.body)
    ensures page.Draft() == old(page.Draft()) && page.Published() == old(page.Published())
  {
    hide Filled, Completes, Completed, Decode, Normalize;
    FilledTwice(Texts(page.title), "");
    var body := Decode(shape, JNull);
    if page.body != null {
      body := Decode(shape, JObject(page.body.m));
    }
    var title := NormalizeMultiLang(page.title);
    var description := NormalizeMultiLang(page.description);
    NormalizeCompletes(body);
    content := Content(title, description, page.seo, Normalize(body), page.updatedAt);
  }

  /** Loading the published snapshot. */
  method FromPublishedPage(shape: Shape, page: ContentPage) returns (content: Content)
    modifies page.publishedTitle, page.publishedDescription
    ensures content.title.m == Filled(old(Texts(page.publishedTitle)), "")
    ensures content.description.m == Filled(old(Texts(page.publishedDescription)), "")
    ensures page.publishedTitle != null ==> content.title == page.publishedTitle
    ensures page.publishedDescription != null ==> content.description == page.publishedDescription
    ensures content.seo == page.publishedSeo
    ensures content.updatedAt == if page.publishedAt.Some? then page.publishedAt.value else page.updatedAt
    ensures content.body == Loaded(shape, page.Published())
    ensures Completed(Decode(shape, Stored(page.Published())), content.body)
    ensures page.Draft() == old(page.Draft()) && page.Published() == old(page.Published())
  {
    hide Filled, Completes, Completed, Decode, Normalize;
    FilledTwice(Texts(page.publishedTitle), "");
    var body := Decode(shape, JNull);
    if page.publishedBody != null {
      body := Decode(shape, JObject(page.publishedBody.m));
    }
    var title := NormalizeMultiLang(page.publishedTitle);
    var description := NormalizeMultiLang(page.publishedDescription);
    var updated := if page.publishedAt.Some? then page.publishedAt.value else page.updatedAt;
    NormalizeCompletes(body);
    content := Content(title, description, page.publishedSeo, Normalize(body), updated);
  }

  /** Both loads of one page. Whatever maps the two share, each text comes out filled once. */
  method LoadBoth(shape: Shape, page: ContentPage) returns (draft: Content, snapshot: Content)
    modifies page.title, page.description, page.publishedTitle, page.publishedDescription
    ensures draft.body == Loaded(shape, page.Draft()) && draft.seo == page.seo
    ensures snapshot.body == Loaded(shape, page.Published()) && snapshot.seo == page.publishedSeo
    ensures draft.title.m == Filled(old(Texts(page.title)), "")
    ensures draft.description.m == Filled(old(Texts(page.description)), "")
    ensures snapshot.title.m == Filled(old(Texts(page.publishedTitle)), "")
    ensures snapshot.description.m == Filled(old(Texts(page.publishedDescription)), "")
    ensures page.Draft() == old(page.Draft()) && page.Published() == old(page.Published())
  {
    FilledTwice(Texts(page.title), "");
    FilledTwice(Texts(page.description), "");
    FilledTwice(Texts(page.publishedTitle), "");
    FilledTwice(Texts(page.publishedDescription), "");
    hide Filled, Loaded;
    draft := FromPage(shape, page);
    snapshot := FromPublishedPage(shape, page);
  }

  /** A save followed by a load of the draft and of the snapshot, on one page. The draft is the saved form,
      with floats for numbers and all languages; the snapshot reads as before unless both share one map. */
  method SaveAndLoad(f64: real -> real, shape: Shape, page: ContentPage, req: Request)
    returns (draft: Content, snapshot: Content)
    requires shape.StructShape? && Conforms(shape, req.body) && DistinctNames(shape)
    modifies page, page.body, req.title, req.description, page.publishedTitle, page.publishedDescription
    ensures draft.body == Normalize(FloatDto(f64, req.body)) && draft.seo == req.seo
    ensures draft.title.m == Filled(old(Texts(req.title)), "")
      && draft.description.m == Filled(old(Texts(req.description)), "")
    ensures snapshot.title.m == Filled(old(Texts(page.publishedTitle)), "")
    ensures snapshot.description.m == Filled(old(Texts(page.publishedDescription)), "")
    ensures snapshot.seo == old(page.publishedSeo)
    ensures old(page.body) == null || old(page.body) != old(page.publishedBody)
      ==> snapshot.body == Loaded(shape, old(page.Published()))
    ensures old(page.body) != null && old(page.body) == old(page.publishedBody) ==> snapshot.body == draft.body
  {
    hide Filled, Merged, Loaded, Normalize, FloatDto, Conforms, DistinctNames, Encode, Decode;
    ghost var base := if page.body != null then page.body.m else map[];
    FilledTwice(Texts(req.title), "");
    FilledTwice(Texts(req.description), "");
    Apply(f64, shape, page, req);
    SavedFormLoads(f64, shape, base, req.body);
    draft, snapshot := LoadBoth(shape, page);
  }
}
