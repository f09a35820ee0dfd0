/** One component (header, body or button) of a message template: its two
    closed enumerations, the error raised when a field is given to a component
    that cannot carry it, and the component itself with its construction,
    validation, parameter append and serialisation to a hash. */
module Resource {
  import opened Wrappers

  /** The structured value `to_json` produces: a Ruby hash whose values are
      strings, integers, arrays or nested hashes. Hash keys, which are Ruby
      symbols, are written as strings. */
  datatype Json =
    | JString(str: string)
    | JInt(num: int)
    | JArray(items: seq<Json>)
    | JObject(fields: map<string, Json>)

  /** `Component::InvalidField`: the symbol naming the offending field and a
      human-readable message. */
  datatype InvalidField = InvalidField(field: string, message: string)

  const SubTypeNotRequired := InvalidField("sub_type", "sub_type is not required when type is not button")
  const IndexNotRequired := InvalidField("index", "index is not required when type is not button")

  /** `Component::Type`: the structural role of a component. */
  datatype Type = Header | Body | Button {

    /** The string that backs each enumeration value, from a closed vocabulary;
        `TryDeserialize` is its inverse (see `TypeSerializeRoundTrip`). */
    function Serialize(): (r: string)
      ensures r in {"header", "body", "button"}
    {
      match this
      case Header => "header"
      case Body => "body"
      case Button => "button"
    }

    /** The enumeration's lookup by string: the value serialising to `s`, or
        `None` when `s` names no value. */
    static function TryDeserialize(s: string): (r: Option<Type>)
      ensures r.Some? ==> r.value.Serialize() == s
      ensures r.None? ==> forall t: Type :: t.Serialize() != s
    {
      if s == "header" then Some(Header)
      else if s == "body" then Some(Body)
      else if s == "button" then Some(Button)
      else None
    }
  }

  /** `Component::Subtype`: the behaviour of a button. */
  datatype Subtype = QuickReply | Url {

    /** The string that backs each enumeration value, from a closed vocabulary;
        `TryDeserialize` is its inverse (see `SubtypeSerializeRoundTrip`). */
    function Serialize(): (r: string)
      ensures r in {"quick_reply", "url"}
    {
      match this
      case QuickReply => "quick_reply"
      case Url => "url"
    }

    /** The enumeration's lookup by string: the value serialising to `s`, or
        `None` when `s` names no value. */
    static function TryDeserialize(s: string): (r: Option<Subtype>)
      ensures r.Some? ==> r.value.Serialize() == s
      ensures r.None? ==> forall t: Subtype :: t.Serialize() != s
    {
      if s == "quick_reply" then Some(QuickReply)
      else if s == "url" then Some(Url)
      else None
    }
  }

  /** Every value of `Type` is found again from its string, so distinct values
      have distinct strings. */
  lemma TypeSerializeRoundTrip(t: Type)
    ensures Type.TryDeserialize(t.Serialize()) == Some(t)
    ensures forall u: Type :: u.Serialize() == t.Serialize() ==> u == t
  {
  }

  /** Every value of `Subtype` is found again from its string, so distinct
      values have distinct strings. */
  lemma SubtypeSerializeRoundTrip(t: Subtype)
    ensures Subtype.TryDeserialize(t.Serialize()) == Some(t)
    ensures forall u: Subtype :: u.Serialize() == t.Serialize() ==> u == t
  {
  }

  /** The index a new component stores: a button given no index is placed
      first (index 0); any index that was given is kept, for every type. */
  function DefaultIndex(kind: Type, index: Option<int>): (r: Option<int>)
    ensures index.Some? ==> r == index
    ensures index.None? && kind == Button ==> r == Some(0)
    ensures kind != Button ==> r == index
  {
    if index.None? && kind == Button then Some(0) else index
  }

  /** The validation run at the end of construction. A button always passes;
      any other component fails on a sub_type first and on an index second.
      Presence is all that is tested, so an index of 0 fails too. */
  function ValidateFields(kind: Type, subType: Option<Subtype>, index: Option<int>): (e: Option<InvalidField>)
    ensures e.None? <==> kind == Button || (subType.None? && index.None?)
    ensures kind != Button && subType.Some? ==> e == Some(SubTypeNotRequired)
    ensures kind != Button && subType.None? && index.Some? ==> e == Some(IndexNotRequired)
  {
    if kind == Button then None
    else if subType.Some? then Some(SubTypeNotRequired)
    else if index.Some? then Some(IndexNotRequired)
    else None
  }

  /** `parameters.map(&:to_json)`: each parameter's own serialisation, in the
      same order. */
  function EncodeAll<P>(ps: seq<P>, enc: P -> Json): (r: seq<Json>)
    ensures |r| == |ps|
    ensures forall i :: 0 <= i < |ps| ==> r[i] == enc(ps[i])
  {
    if ps == [] then [] else [enc(ps[0])] + EncodeAll(ps[1..], enc)
  }

  /** Appending a parameter appends its serialisation: the emitted parameters
      keep the order in which they were added. */
  lemma EncodeAllAppend<P>(ps: seq<P>, p: P, enc: P -> Json)
    ensures EncodeAll(ps + [p], enc) == EncodeAll(ps, enc) + [enc(p)]
  {
  }

  /** When parameters serialise to distinct values, so do parameter lists. */
  lemma EncodeAllInjective<P>(ps: seq<P>, qs: seq<P>, enc: P -> Json)
    requires forall a, b :: enc(a) == enc(b) ==> a == b
    requires EncodeAll(ps, enc) == EncodeAll(qs, enc)
    ensures ps == qs
  {
  }

  /** The keys `to_json` may emit. */
  const JsonKeys: set<string> := {"type", "parameters", "sub_type", "index"}

  /** `WhatsappSdk::Resource::Component`, over parameters of type `P`.
      The validation of `ValidateFields` holds right after `New` succeeds;
      the Ruby attribute writers, which are not modelled, could break it later. */
  class Component<P> {
    /** The source's `type` attribute (`type` is a keyword here). */
    var kind: Type
    var parameters: seq<P>
    var subType: Option<Subtype>
    var index: Option<int>

    /** The type-dependent rule the constructor enforces. */
    ghost predicate Valid()
      reads this
    {
      ValidateFields(kind, subType, index).None?
    }

    /** The assignment part of `initialize`, for arguments that pass validation:
        the fields take the given values, with the index defaulted for a
        button. Only `New` stands for `Component.new`; it validates first. */
    constructor (kind: Type, parameters: seq<P>, subType: Option<Subtype>, index: Option<int>)
      requires ValidateFields(kind, subType, DefaultIndex(kind, index)).None?
      ensures Valid()
      ensures this.kind == kind && this.parameters == parameters && this.subType == subType
      ensures this.index == DefaultIndex(kind, index)
    {
      this.parameters := parameters;
      this.kind := kind;
      this.subType := subType;
      this.index := DefaultIndex(kind, index);
    }

    /** `add_parameter`: appends in place; nothing else changes and nothing is
        validated again. */
    method AddParameter(parameter: P)
      modifies this
      ensures parameters == old(parameters) + [parameter]
      ensures kind == old(kind) && subType == old(subType) && index == old(index)
      ensures old(Valid()) ==> Valid()
    {
      parameters := parameters + [parameter];
    }

    /** `to_json`: `type` and `parameters` are always present; `sub_type` and
        `index` exactly when they are not nil (an index of 0 included); no other
        key appears. The component is only read. */
    function ToJson(enc: P -> Json): (json: map<string, Json>)
      reads this
      ensures "type" in json && json["type"] == JString(kind.Serialize())
      ensures "parameters" in json && json["parameters"] == JArray(EncodeAll(parameters, enc))
      ensures "sub_type" in json <==> subType.Some?
      ensures subType.Some? ==> json["sub_type"] == JString(subType.value.Serialize())
      ensures "index" in json <==> index.Some?
      ensures index.Some? ==> json["index"] == JInt(index.value)
      ensures json.Keys <= JsonKeys
    {
      var base := map["type" := JString(kind.Serialize()), "parameters" := JArray(EncodeAll(parameters, enc))];
      var withSubType := if subType.Some? then base["sub_type" := JString(subType.value.Serialize())] else base;
      if index.Some? then withSubType["index" := JInt(index.value)] else withSubType
    }
  }

  /** `Component.new(type:, parameters: [], sub_type: nil, index: nil)`: a new
      component, or the `InvalidField` that `initialize` raises. It succeeds
      exactly for a button, or when neither sub_type nor index is given; the
      sub_type error wins over the index error. */
  method New<P>(nameonly kind: Type, nameonly parameters: seq<P> := [],
                nameonly subType: Option<Subtype> := None, nameonly index: Option<int> := None)
    returns (r: Result<Component<P>, InvalidField>)
    ensures r.Success? <==> kind == Button || (subType.None? && index.None?)
    ensures r.Failure? && subType.Some? ==> r.error == SubTypeNotRequired
    ensures r.Failure? && subType.None? ==> r.error == IndexNotRequired
    ensures r.Success? ==> fresh(r.value) && r.value.Valid()
    ensures r.Success? ==> r.value.kind == kind && r.value.parameters == parameters
                           && r.value.subType == subType && r.value.index == DefaultIndex(kind, index)
  {
    match ValidateFields(kind, subType, DefaultIndex(kind, index))
    case Some(e) => r := Failure(e);
    case None =>
      var c := new Component(kind, parameters, subType, index);
      r := Success(c);
  }

  /** Serialisation loses nothing: two components with the same hash agree on
      every field, provided the parameters serialise to distinct values. */
  lemma ToJsonInjective<P>(a: Component<P>, b: Component<P>, enc: P -> Json)
    requires forall x, y :: enc(x) == enc(y) ==> x == y
    requires a.ToJson(enc) == b.ToJson(enc)
    ensures a.kind == b.kind && a.parameters == b.parameters
    ensures a.subType == b.subType && a.index == b.index
  {
  }

  /** A valid header or body serialises with `type` and `parameters` only:
      validation has ruled out a sub_type and an index, so neither optional
      key is emitted. */
  lemma ValidNonButtonJson<P>(c: Component<P>, enc: P -> Json)
    requires c.Valid() && c.kind != Button
    ensures c.ToJson(enc).Keys == {"type", "parameters"}
  {
  }

  /** What a client can conclude from the contracts alone. */
  method ClientExamples()
  {
    var enc := (n: int) => JInt(n);

    // A button given no index is placed first and emits `index: 0`.
    var r := New<int>(kind := Button);
    var c := r.value;
    assert c.index == Some(0);
    var json := c.ToJson(enc);
    assert json.Keys == {"type", "parameters", "index"};
    assert json["index"] == JInt(0);

    // A url button keeps its index, and appended parameters are emitted in order.
    r := New<int>(kind := Button, subType := Some(Url), index := Some(1));
    c := r.value;
    c.AddParameter(7);
    c.AddParameter(8);
    assert c.parameters == [7, 8];
    json := c.ToJson(enc);
    assert json["parameters"] == JArray([JInt(7), JInt(8)]);
    assert json["sub_type"] == JString("url") && json["index"] == JInt(1);

    // A header given an explicit index of 0 is rejected.
    r := New<int>(kind := Header, index := Some(0));
    assert r == Failure(IndexNotRequired);

    // A body given both fields reports the sub_type first.
    r := New<int>(kind := Body, subType := Some(QuickReply), index := Some(2));
    assert r == Failure(SubTypeNotRequired);
  }
}
