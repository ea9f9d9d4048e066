/** Temporal-property values: the MF-JSON document written from a request body, and
    the value sequence read back from such a document. */
module MFJson {
  import opened Wrappers

  datatype Json = Null | Bool(b: bool) | Number(text: string) | Text(s: string)
                | Array(items: seq<Json>) | Object(fields: map<string, Json>)

  type Members = map<string, Json>

  datatype Problem =
    | Incomplete                   // neither datetimes and values nor a value sequence
    | NotCarried(interp: string)   // a name of the standard that the store has no match for
    | NotNamed(interp: string)     // no name of the standard
    | NotReadable                  // not the shape of an MF-JSON document

  /** Anything but an object reads as an object without members. */
  function MembersOf(j: Json): Members {
    if j.Object? then j.fields else map[]
  }

  /** A missing member reads as null. */
  function Get(m: Members, key: string): Json {
    if key in m then m[key] else Null
  }

  const CARRIED: set<string> := {"Linear", "Step", "Discrete"}
  const ONLY_NAMED: set<string> := {"Quadratic", "Cubic", "Regression"}

  function MdbInterp(s: string): Result<string, Problem> {
    if s in CARRIED then Success(s)
    else if s in ONLY_NAMED then Failure(NotCarried(s))
    else Failure(NotNamed(s))
  }

  function MapInterp(v: Json, def: string): Result<string, Problem> {
    var s := if v.Text? then v.s else "";
    if s == "" then Success(def) else MdbInterp(s)
  }

  function OrTrue(v: Json): bool {
    if v.Bool? then v.b else true
  }

  // Writing.

  function Sequence(m: Members): Json {
    Object(map["values" := Get(m, "values"), "datetimes" := Get(m, "datetimes"),
               "lower_inc" := Bool(OrTrue(Get(m, "lower_inc"))), "upper_inc" := Bool(OrTrue(Get(m, "upper_inc")))])
  }

  function Sequences(vs: seq<Json>): seq<Json> {
    seq(|vs|, i requires 0 <= i < |vs| => Sequence(MembersOf(vs[i])))
  }

  /** The interpolation of a sequence set: each segment in turn is asked until one
      gives a name that is not empty. */
  function SetInterp(interp: string, vs: seq<Json>, def: string): Result<string, Problem>
    decreases |vs|
  {
    if interp != "" || vs == [] then Success(interp)
    else
      match MapInterp(Get(MembersOf(vs[0]), "interpolation"), def)
      case Failure(e) => Failure(e)
      case Success(name) => SetInterp(name, vs[1..], def)
  }

  function SetDocument(mfType: string, vs: seq<Json>, def: string): Result<Members, Problem> {
    match SetInterp("", vs, def)
    case Failure(e) => Failure(e)
    case Success(interp) =>
      Success(map["type" := Text(mfType), "sequences" := Array(Sequences(vs)), "interpolation" := Text(interp)])
  }

  function FlatDocument(mfType: string, m: Members, def: string): Result<Members, Problem> {
    if Get(m, "datetimes").Null? || Get(m, "values").Null? then Failure(Incomplete)
    else
      match MapInterp(Get(m, "interpolation"), def)
      case Failure(e) => Failure(e)
      case Success(interp) =>
        Success(map["type" := Text(mfType), "datetimes" := Get(m, "datetimes"), "values" := Get(m, "values"),
                    "interpolation" := Text(interp),
                    "lower_inc" := Bool(OrTrue(Get(m, "lower_inc"))), "upper_inc" := Bool(OrTrue(Get(m, "upper_inc")))])
  }

  /** The segments of a body's value sequence; none when it has no such array. */
  function Segments(body: Json): seq<Json> {
    var vs := Get(MembersOf(body), "valueSequence");
    if vs.Array? then vs.items else []
  }

  /** The body inside any nest of one-segment value sequences. */
  function Innermost(body: Json): Json
    decreases body
  {
    if body.Object? && "valueSequence" in body.fields && body.fields["valueSequence"].Array?
       && |body.fields["valueSequence"].items| == 1 then
      Innermost(body.fields["valueSequence"].items[0])
    else body
  }

  /** The document of a body. */
  function Document(mfType: string, def: string, body: Json): Result<Members, Problem> {
    var inner := Innermost(body);
    if Segments(inner) == [] then FlatDocument(mfType, MembersOf(inner), def)
    else SetDocument(mfType, Segments(inner), def)
  }

  method TPropMFJSON(mfType: string, def: string, body: Json) returns (r: Result<Members, Problem>)
    ensures r == Document(mfType, def, body)
    decreases body
  {
    if body.Object? && "valueSequence" in body.fields && body.fields["valueSequence"].Array?
       && |body.fields["valueSequence"].items| > 0 {
      var vs := body.fields["valueSequence"].items;
      if |vs| == 1 {
        r := TPropMFJSON(mfType, def, vs[0]);
        return;
      }
      r := WriteSet(mfType, def, vs);
      return;
    }
    var m := MembersOf(body);
    if Get(m, "datetimes").Null? || Get(m, "values").Null? {
      return Failure(Incomplete);
    }
    var interp := MapInterp(Get(m, "interpolation"), def);
    if interp.Failure? {
      return Failure(interp.error);
    }
    return Success(map["type" := Text(mfType), "datetimes" := Get(m, "datetimes"), "values" := Get(m, "values"),
                       "interpolation" := Text(interp.value),
                       "lower_inc" := Bool(OrTrue(Get(m, "lower_inc"))),
                       "upper_inc" := Bool(OrTrue(Get(m, "upper_inc")))]);
  }

  method WriteSet(mfType: string, def: string, vs: seq<Json>) returns (r: Result<Members, Problem>)
    ensures r == SetDocument(mfType, vs, def)
  {
    var seqs: seq<Json>, interp := [], "";
    for i := 0 to |vs|
      invariant SetInterp("", vs, def) == SetInterp(interp, vs[i..], def)
      invariant seqs == Sequences(vs)[..i]
    {
      var m := MembersOf(vs[i]);
      if interp == "" {
        var mapped := MapInterp(Get(m, "interpolation"), def);
        if mapped.Failure? {
          return Failure(mapped.error);
        }
        interp := mapped.value;
      }
      assert interp != "" ==> SetInterp(interp, vs[i..], def) == SetInterp(interp, vs[i + 1..], def);
      seqs := seqs + [Sequence(m)];
    }
    assert seqs == Sequences(vs);
    return Success(map["type" := Text(mfType), "sequences" := Array(seqs), "interpolation" := Text(interp)]);
  }

  // Reading.

  function Segment(m: Members, interp: Json): Json {
    Object(map["datetimes" := Get(m, "datetimes"), "values" := Get(m, "values"), "interpolation" := interp,
               "lower_inc" := Get(m, "lower_inc"), "upper_inc" := Get(m, "upper_inc")])
  }

  predicate ObjectsOrNulls(items: seq<Json>) {
    forall i :: 0 <= i < |items| ==> items[i].Object? || items[i].Null?
  }

  /** The value sequence of a document. */
  function ValueSequence(doc: Members): Result<seq<Json>, Problem> {
    var interp := Get(doc, "interpolation");
    if "sequences" in doc then
      match doc["sequences"]
      case Null => Success([])
      case Array(items) =>
        if ObjectsOrNulls(items) then
          Success(seq(|items|, i requires 0 <= i < |items| => Segment(MembersOf(items[i]), interp)))
        else Failure(NotReadable)
      case _ => Failure(NotReadable)
    else if "datetimes" in doc then Success([Segment(doc, interp)])
    else Success([])
  }

  /** Null, or an array of objects and nulls. */
  ghost predicate ListsObjects(j: Json) {
    j == Null || (j.Array? && forall x :: x in j.items ==> x.Object? || x == Null)
  }

  method ReshapeTemporalProperty(doc: Members) returns (r: Result<seq<Json>, Problem>)
    ensures r == ValueSequence(doc)
    ensures r.Failure? <==> "sequences" in doc && !ListsObjects(doc["sequences"])
  {
    var interp := Get(doc, "interpolation");
    var vs: seq<Json> := [];
    if "sequences" in doc {
      var raw := doc["sequences"];
      if raw.Null? {
        return Success([]);
      }
      if !raw.Array? || !ObjectsOrNulls(raw.items) {
        return Failure(NotReadable);
      }
      for i := 0 to |raw.items|
        invariant |vs| == i && forall j :: 0 <= j < i ==> vs[j] == Segment(MembersOf(raw.items[j]), interp)
      {
        vs := vs + [Segment(MembersOf(raw.items[i]), interp)];
      }
      assert vs == seq(|raw.items|, i requires 0 <= i < |raw.items| => Segment(MembersOf(raw.items[i]), interp));
    } else if "datetimes" in doc {
      vs := [Segment(doc, interp)];
    }
    return Success(vs);
  }

  /** The body a client would send to write back what it has read. */
  function Body(vs: seq<Json>): Json {
    Object(map["valueSequence" := Array(vs)])
  }

  // Laws.

  function Nest(n: nat, body: Json): Json {
    if n == 0 then body else Body([Nest(n - 1, body)])
  }

  /** However deep one-segment value sequences nest, the document is that of the
      body inside. */
  lemma {:induction false} NestingIsTransparent(n: nat, mfType: string, def: string, body: Json)
    ensures Document(mfType, def, Nest(n, body)) == Document(mfType, def, body)
  {
    if n > 0 {
      NestingIsTransparent(n - 1, mfType, def, body);
      assert Innermost(Nest(n, body)) == Innermost(Nest(n - 1, body));
    }
  }

  lemma {:induction false} InnermostIsNotOne(body: Json)
    ensures |Segments(Innermost(body))| != 1
    decreases body
  {
    if body.Object? && "valueSequence" in body.fields && body.fields["valueSequence"].Array?
       && |body.fields["valueSequence"].items| == 1 {
      InnermostIsNotOne(body.fields["valueSequence"].items[0]);
    }
  }

  /** What a body says, segment by segment: those of its value sequence, or itself. */
  function Parts(body: Json): seq<Json> {
    var inner := Innermost(body);
    if Segments(inner) == [] then [inner] else Segments(inner)
  }

  /** The interpolation of a set is its first segment's, or the type's default; the
      later segments' is not looked at. */
  lemma FirstSegmentDecides(vs: seq<Json>, def: string)
    requires vs != [] && def != ""
    ensures SetInterp("", vs, def) == MapInterp(Get(MembersOf(vs[0]), "interpolation"), def)
  {}

  /** The part's own members, if it is an object. */
  ghost predicate Says(part: Json, key: string, v: Json) {
    part.Object? && key in part.fields && part.fields[key] == v
  }

  ghost predicate SaysNothing(part: Json, key: string) {
    part.Object? && key in part.fields ==> part.fields[key] == Null
  }

  /** The interpolation the part names; empty for none, and for anything but text. */
  ghost predicate Names(part: Json, interp: string) {
    Says(part, "interpolation", Text(interp))
    || (interp == "" && forall s :: !Says(part, "interpolation", Text(s)))
  }

  /** What becomes of a body, told by its first part. */
  ghost predicate Settles(body: Json, r: Result<Members, Problem>) {
    var ps := Parts(body);
    if |ps| == 1 && (SaysNothing(ps[0], "datetimes") || SaysNothing(ps[0], "values")) then r == Failure(Incomplete)
    else forall interp | Names(ps[0], interp) ::
      if interp in {"", "Linear", "Step", "Discrete"} then r.Success?
      else if interp in {"Quadratic", "Cubic", "Regression"} then r == Failure(NotCarried(interp))
      else r == Failure(NotNamed(interp))
  }

  lemma NamedIsMapped(part: Json, interp: string, def: string)
    requires Names(part, interp)
    ensures MapInterp(Get(MembersOf(part), "interpolation"), def)
         == if interp == "" then Success(def) else MdbInterp(interp)
  {
    var v := Get(MembersOf(part), "interpolation");
    assert v.Text? ==> Says(part, "interpolation", Text(v.s));
  }

  lemma SomeName(part: Json) returns (interp: string)
    ensures Names(part, interp)
  {
    if s :| Says(part, "interpolation", Text(s)) {
      interp := s;
    } else {
      interp := "";
    }
  }

  /** When a body is accepted, and how it is refused otherwise. */
  lemma Accepted(mfType: string, def: string, body: Json)
    requires def != ""
    ensures Settles(body, Document(mfType, def, body))
  {
    var ps := Parts(body);
    InnermostIsNotOne(body);
    var inner := Innermost(body);
    if Segments(inner) != [] {
      FirstSegmentDecides(Segments(inner), def);
    }
    hide Innermost, Segments;
    forall interp | Names(ps[0], interp)
      ensures MapInterp(Get(MembersOf(ps[0]), "interpolation"), def)
           == if interp == "" then Success(def) else MdbInterp(interp)
    {
      NamedIsMapped(ps[0], interp, def);
    }
    hide MapInterp, Names;
  }

  /** A member taken over as it is, null if the part has none. */
  ghost predicate Copies(m: Members, part: Json, key: string) {
    key in m && if part.Object? && key in part.fields then m[key] == part.fields[key] else m[key] == Null
  }

  /** A bound that is given, and is true or false, is that; any other is inclusive. */
  ghost predicate Bounds(m: Members, part: Json, key: string) {
    && key in m
    && (Says(part, key, Bool(false)) ==> m[key] == Bool(false))
    && (!Says(part, key, Bool(false)) ==> m[key] == Bool(true))
  }

  /** The members hold the part's datetimes and values, and its bounds spelled out. */
  ghost predicate Holds(m: Members, part: Json) {
    && Copies(m, part, "datetimes") && Copies(m, part, "values")
    && Bounds(m, part, "lower_inc") && Bounds(m, part, "upper_inc")
  }

  /** The first part's interpolation, or the default if it names none. */
  ghost predicate Interpolates(part: Json, def: string, interp: string) {
    forall name | Names(part, name) :: interp == if name == "" then def else name
  }

  /** A document of the given type and of these parts, with the one interpolation: flat
      for one, a set for more. */
  ghost predicate Written(doc: Members, mfType: string, ps: seq<Json>, def: string) {
    && "type" in doc && doc["type"] == Text(mfType)
    && ps != [] && "interpolation" in doc && doc["interpolation"].Text?
    && Interpolates(ps[0], def, doc["interpolation"].s)
    && if |ps| == 1 then Holds(doc, ps[0]) && "sequences" !in doc
       else "sequences" in doc && doc["sequences"].Array? && |doc["sequences"].items| == |ps|
            && forall i :: 0 <= i < |ps| ==>
                 doc["sequences"].items[i].Object? && Holds(doc["sequences"].items[i].fields, ps[i])
  }

  lemma InterpIsFirst(part: Json, def: string)
    requires MapInterp(Get(MembersOf(part), "interpolation"), def).Success?
    ensures Interpolates(part, def, MapInterp(Get(MembersOf(part), "interpolation"), def).value)
  {
    forall name | Names(part, name)
      ensures MapInterp(Get(MembersOf(part), "interpolation"), def).value == if name == "" then def else name
    {
      NamedIsMapped(part, name, def);
    }
  }

  lemma FlatWritten(mfType: string, def: string, part: Json)
    requires FlatDocument(mfType, MembersOf(part), def).Success?
    ensures Written(FlatDocument(mfType, MembersOf(part), def).value, mfType, [part], def)
  {
    InterpIsFirst(part, def);
    hide MapInterp, Interpolates;
  }

  lemma SequenceHolds(part: Json)
    ensures Sequence(MembersOf(part)).Object? && Holds(Sequence(MembersOf(part)).fields, part)
  {}

  lemma SetWritten(mfType: string, def: string, ps: seq<Json>)
    requires def != "" && |ps| > 1 && SetDocument(mfType, ps, def).Success?
    ensures Written(SetDocument(mfType, ps, def).value, mfType, ps, def)
  {
    FirstSegmentDecides(ps, def);
    InterpIsFirst(ps[0], def);
    hide MapInterp, Interpolates, Sequence, Holds, SetInterp;
    forall i | 0 <= i < |ps| ensures Sequences(ps)[i].Object? && Holds(Sequences(ps)[i].fields, ps[i]) {
      SequenceHolds(ps[i]);
    }
  }

  /** An accepted body is written down as it is. */
  lemma WrittenDown(mfType: string, def: string, body: Json)
    requires def != "" && Document(mfType, def, body).Success?
    ensures Written(Document(mfType, def, body).value, mfType, Parts(body), def)
  {
    var inner := Innermost(body);
    InnermostIsNotOne(body);
    hide Innermost, Written, FlatDocument, SetDocument;
    if Segments(inner) == [] {
      FlatWritten(mfType, def, inner);
    } else {
      SetWritten(mfType, def, Segments(inner));
    }
  }

  /** A segment read back says what the part written did, and the one interpolation. */
  ghost predicate SaysSame(v: Json, part: Json, interp: Json) {
    v.Object? && Holds(v.fields, part) && "interpolation" in v.fields && v.fields["interpolation"] == interp
  }

  /** What is read back has the written segments, in order. */
  lemma SegmentsSurvive(mfType: string, def: string, body: Json)
    requires def != "" && Document(mfType, def, body).Success?
    ensures var doc, ps := Document(mfType, def, body).value, Parts(body);
            var vs := ValueSequence(doc);
            vs.Success? && |vs.value| == |ps| && "interpolation" in doc
            && forall i :: 0 <= i < |ps| ==> SaysSame(vs.value[i], ps[i], doc["interpolation"])
  {
    WrittenDown(mfType, def, body);
    hide Document, Parts;
    WrittenReadsBack(Document(mfType, def, body).value, mfType, Parts(body), def);
  }

  lemma SegmentSays(m: Members, part: Json, interp: Json)
    requires Holds(m, part)
    ensures SaysSame(Segment(m, interp), part, interp)
  {}

  lemma WrittenReadsBack(doc: Members, mfType: string, ps: seq<Json>, def: string)
    requires Written(doc, mfType, ps, def)
    ensures var vs := ValueSequence(doc);
            vs.Success? && |vs.value| == |ps| && "interpolation" in doc
            && forall i :: 0 <= i < |ps| ==> SaysSame(vs.value[i], ps[i], doc["interpolation"])
  {
    var interp := Get(doc, "interpolation");
    if |ps| == 1 {
      assert "datetimes" in doc;
      SegmentSays(doc, ps[0], interp);
    } else {
      hide Interpolates, Holds, SaysSame, Segment;
      var items := doc["sequences"].items;
      forall i | 0 <= i < |ps| ensures SaysSame(Segment(MembersOf(items[i]), interp), ps[i], interp) {
        SegmentSays(items[i].fields, ps[i], interp);
      }
    }
  }

  lemma InterpCarried(v: Json, def: string)
    requires def in CARRIED && MapInterp(v, def).Success?
    ensures var s := MapInterp(v, def).value; s in CARRIED && MapInterp(Text(s), def) == Success(s)
  {}

  /** A document read and written back is the same document. */
  lemma WriteReadWrite(mfType: string, def: string, body: Json)
    requires def in CARRIED && Document(mfType, def, body).Success?
    ensures var doc := Document(mfType, def, body).value;
            var vs := ValueSequence(doc);
            vs.Success? && Document(mfType, def, Body(vs.value)) == Success(doc)
  {
    InnermostIsNotOne(body);
    var inner := Innermost(body);
    hide Innermost;
    if Segments(inner) == [] {
      FlatAgain(mfType, def, MembersOf(inner));
    } else {
      SetAgain(mfType, def, Segments(inner));
    }
  }

  lemma FlatAgain(mfType: string, def: string, m: Members)
    requires def in CARRIED && FlatDocument(mfType, m, def).Success?
    ensures var doc := FlatDocument(mfType, m, def).value;
            ValueSequence(doc).Success? && Document(mfType, def, Body(ValueSequence(doc).value)) == Success(doc)
  {
    var doc := FlatDocument(mfType, m, def).value;
    var vs := ValueSequence(doc).value;
    InterpCarried(Get(m, "interpolation"), def);
    assert Innermost(Body(vs)) == vs[0];
  }

  lemma SetAgain(mfType: string, def: string, ps: seq<Json>)
    requires def in CARRIED && |ps| > 1 && SetDocument(mfType, ps, def).Success?
    ensures var doc := SetDocument(mfType, ps, def).value;
            ValueSequence(doc).Success? && Document(mfType, def, Body(ValueSequence(doc).value)) == Success(doc)
  {
    var doc := SetDocument(mfType, ps, def).value;
    var vs := ValueSequence(doc).value;
    FirstSegmentDecides(ps, def);
    InterpCarried(Get(MembersOf(ps[0]), "interpolation"), def);
    hide MapInterp;
    FirstSegmentDecides(vs, def);
    assert Innermost(Body(vs)) == Body(vs);
    assert Sequences(vs) == Sequences(ps);
  }
}
