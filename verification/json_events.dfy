/** JSON output as the sequence of calls made on a Jackson `JsonGenerator`,
    together with the JSON document such a sequence denotes. */
module JsonEvents {
  import opened Wrappers
  import opened Diagnostics

  /** A Java object handed to `writeObject`; how Jackson renders it is left open. */
  datatype Pojo =
    | LogTypeObject(logType: ValidationLogType)
    | SpecificationObject(specification: Specification)
    | LocationObject(location: SourceLocation)
    | ValueObject(value: JavaValue)
    | ArgumentTypeObject(argumentType: ArgumentType)
    | StringObject(text: string)

  /** One generator call. `Field` is `writeFieldName`, `Str` is `writeString`
      with a non-null string, `Obj` is `writeObject` with a non-null object and
      `NullValue` is `writeNull`. */
  datatype Event =
    | StartArray
    | EndArray
    | StartObject
    | EndObject
    | Field(name: string)
    | Str(text: string)
    | Obj(pojo: Pojo)
    | NullValue

  /** `gen.writeObject(o)`: a `null` object is written as a JSON null. */
  function WriteObject(o: Option<Pojo>): seq<Event> {
    match o
    case None => [NullValue]
    case Some(p) => [Obj(p)]
  }

  /** `gen.writeString(s)`: a `null` string is written as a JSON null. */
  function WriteString(s: Option<string>): seq<Event> {
    match s
    case None => [NullValue]
    case Some(t) => [Str(t)]
  }

  // ---------------------------------------------------------------------
  // The JSON document an event trace denotes
  // ---------------------------------------------------------------------

  datatype Json =
    | JArray(items: seq<Json>)
    | JObject(members: seq<Member>)
    | JString(text: string)
    | JPojo(pojo: Pojo)
    | JNull

  datatype Member = Member(name: string, value: Json)

  /** The generator calls that write `j`. */
  function Encode(j: Json): (ev: seq<Event>)
    ensures |ev| > 0 && !ev[0].EndArray? && !ev[0].EndObject? && !ev[0].Field?
    decreases j, 1
  {
    match j
    case JArray(items) => [StartArray] + EncodeItems(items) + [EndArray]
    case JObject(members) => [StartObject] + EncodeMembers(members) + [EndObject]
    case JString(t) => [Str(t)]
    case JPojo(p) => [Obj(p)]
    case JNull => [NullValue]
  }

  function EncodeItems(items: seq<Json>): seq<Event>
    decreases items, 0
  {
    if |items| == 0 then [] else Encode(items[0]) + EncodeItems(items[1..])
  }

  function EncodeMembers(members: seq<Member>): seq<Event>
    decreases members, 0
  {
    if |members| == 0 then []
    else [Field(members[0].name)] + Encode(members[0].value) + EncodeMembers(members[1..])
  }

  /** A member list is written member after member. */
  lemma EncodeMembersCons(m: Member, rest: seq<Member>)
    ensures EncodeMembers([m] + rest) == [Field(m.name)] + Encode(m.value) + EncodeMembers(rest)
  {
    assert ([m] + rest)[1..] == rest;
  }

  /** The object for two members `a` and `b`, written in that order. */
  lemma EncodePair(a: Member, b: Member)
    ensures Encode(JObject([a, b])) ==
      [StartObject, Field(a.name)] + Encode(a.value) + [Field(b.name)] + Encode(b.value) + [EndObject]
  {
    var ea, eb := Encode(a.value), Encode(b.value);
    assert [b][1..] == [];
    assert EncodeMembers([b]) == [Field(b.name)] + eb;
    assert [a, b][1..] == [b];
    assert EncodeMembers([a, b]) == [Field(a.name)] + ea + ([Field(b.name)] + eb);
    assert Encode(JObject([a, b])) == [StartObject] + EncodeMembers([a, b]) + [EndObject];
  }

  /** The members of a five-member object, written in order. */
  lemma EncodeFive(m0: Member, m1: Member, m2: Member, m3: Member, m4: Member)
    ensures EncodeMembers([m0, m1, m2, m3, m4]) ==
      [Field(m0.name)] + Encode(m0.value) + ([Field(m1.name)] + Encode(m1.value) + ([Field(m2.name)] + Encode(m2.value) +
      ([Field(m3.name)] + Encode(m3.value) + ([Field(m4.name)] + Encode(m4.value)))))
  {
    EncodeMembersCons(m4, []);
    assert [m4] + [] == [m4];
    assert EncodeMembers([m4]) == [Field(m4.name)] + Encode(m4.value);
    EncodeMembersCons(m3, [m4]);
    assert [m3] + [m4] == [m3, m4];
    EncodeMembersCons(m2, [m3, m4]);
    assert [m2] + [m3, m4] == [m2, m3, m4];
    EncodeMembersCons(m1, [m2, m3, m4]);
    assert [m1] + [m2, m3, m4] == [m1, m2, m3, m4];
    EncodeMembersCons(m0, [m1, m2, m3, m4]);
    assert [m0] + [m1, m2, m3, m4] == [m0, m1, m2, m3, m4];
  }

  // ---------------------------------------------------------------------
  // Reading a trace back
  // ---------------------------------------------------------------------

  /** Reads one JSON value from the front of `ev`, returning it and what follows. */
  function DecodeValue(ev: seq<Event>): (r: Option<(Json, seq<Event>)>)
    ensures r.Some? ==> |r.value.1| < |ev|
    decreases |ev|, 0
  {
    if |ev| == 0 then None
    else
      match ev[0]
      case StartArray =>
        (match DecodeItems(ev[1..])
         case None => None
         case Some((items, rest)) => Some((JArray(items), rest)))
      case StartObject =>
        (match DecodeMembers(ev[1..])
         case None => None
         case Some((members, rest)) => Some((JObject(members), rest)))
      case Str(t) => Some((JString(t), ev[1..]))
      case Obj(p) => Some((JPojo(p), ev[1..]))
      case NullValue => Some((JNull, ev[1..]))
      case _ => None
  }

  /** Reads array items up to and including the closing `EndArray`. */
  function DecodeItems(ev: seq<Event>): (r: Option<(seq<Json>, seq<Event>)>)
    ensures r.Some? ==> |r.value.1| < |ev|
    decreases |ev|, 1
  {
    if |ev| == 0 then None
    else if ev[0] == EndArray then Some(([], ev[1..]))
    else
      match DecodeValue(ev)
      case None => None
      case Some((j, rest)) =>
        match DecodeItems(rest)
        case None => None
        case Some((items, rest')) => Some(([j] + items, rest'))
  }

  /** Reads object members up to and including the closing `EndObject`. */
  function DecodeMembers(ev: seq<Event>): (r: Option<(seq<Member>, seq<Event>)>)
    ensures r.Some? ==> |r.value.1| < |ev|
    decreases |ev|, 1
  {
    if |ev| == 0 then None
    else if ev[0] == EndObject then Some(([], ev[1..]))
    else if !ev[0].Field? then None
    else
      match DecodeValue(ev[1..])
      case None => None
      case Some((v, rest)) =>
        match DecodeMembers(rest)
        case None => None
        case Some((members, rest')) => Some(([Member(ev[0].name, v)] + members, rest'))
  }

  /** The document a complete trace denotes, if it denotes one. */
  function Decode(ev: seq<Event>): Option<Json> {
    match DecodeValue(ev)
    case Some((j, rest)) => if rest == [] then Some(j) else None
    case None => None
  }

  lemma {:induction false} DecodeEncodeValue(j: Json, rest: seq<Event>)
    ensures DecodeValue(Encode(j) + rest) == Some((j, rest))
    decreases j, 1
  {
    match j
    case JArray(items) =>
      assert (Encode(j) + rest)[1..] == EncodeItems(items) + [EndArray] + rest;
      DecodeEncodeItems(items, rest);
    case JObject(members) =>
      assert (Encode(j) + rest)[1..] == EncodeMembers(members) + [EndObject] + rest;
      DecodeEncodeMembers(members, rest);
    case JString(_) =>
    case JPojo(_) =>
    case JNull =>
  }

  lemma {:induction false} DecodeEncodeItems(items: seq<Json>, rest: seq<Event>)
    ensures DecodeItems(EncodeItems(items) + [EndArray] + rest) == Some((items, rest))
    decreases items, 0
  {
    if |items| > 0 {
      var tail := EncodeItems(items[1..]) + [EndArray] + rest;
      assert EncodeItems(items) + [EndArray] + rest == Encode(items[0]) + tail;
      DecodeEncodeValue(items[0], tail);
      DecodeEncodeItems(items[1..], rest);
      assert [items[0]] + items[1..] == items;
    }
  }

  lemma {:induction false} DecodeEncodeMembers(members: seq<Member>, rest: seq<Event>)
    ensures DecodeMembers(EncodeMembers(members) + [EndObject] + rest) == Some((members, rest))
    decreases members, 0
  {
    if |members| > 0 {
      var m := members[0];
      var tail := EncodeMembers(members[1..]) + [EndObject] + rest;
      var ev := EncodeMembers(members) + [EndObject] + rest;
      assert ev == [Field(m.name)] + (Encode(m.value) + tail);
      DecodeEncodeValue(m.value, tail);
      DecodeEncodeMembers(members[1..], rest);
      assert [Member(m.name, m.value)] + members[1..] == members;
    }
  }

  /** Every document is read back, unchanged, from the trace that writes it. */
  lemma DecodeEncode(j: Json)
    ensures Decode(Encode(j)) == Some(j)
  {
    DecodeEncodeValue(j, []);
    assert Encode(j) + [] == Encode(j);
  }

  // ---------------------------------------------------------------------
  // Nesting of start and end events
  // ---------------------------------------------------------------------

  datatype Frame = InArray | InObject

  /** Replays `ev` on a stack of open containers: `None` when an end event does
      not close the innermost open container. */
  function Nest(ev: seq<Event>, stack: seq<Frame>): Option<seq<Frame>>
    decreases |ev|
  {
    if |ev| == 0 then Some(stack)
    else
      match ev[0]
      case StartArray => Nest(ev[1..], stack + [InArray])
      case StartObject => Nest(ev[1..], stack + [InObject])
      case EndArray =>
        if |stack| > 0 && stack[|stack| - 1] == InArray then Nest(ev[1..], stack[..|stack| - 1]) else None
      case EndObject =>
        if |stack| > 0 && stack[|stack| - 1] == InObject then Nest(ev[1..], stack[..|stack| - 1]) else None
      case _ => Nest(ev[1..], stack)
  }

  /** Every start event is closed by the matching end event, properly nested. */
  predicate Balanced(ev: seq<Event>) {
    Nest(ev, []) == Some([])
  }

  lemma {:induction false} NestConcat(a: seq<Event>, b: seq<Event>, stack: seq<Frame>)
    ensures Nest(a + b, stack) == (match Nest(a, stack) case None => None case Some(s) => Nest(b, s))
    decreases |a|
  {
    if |a| > 0 {
      assert (a + b)[1..] == a[1..] + b;
      match a[0]
      case StartArray => NestConcat(a[1..], b, stack + [InArray]);
      case StartObject => NestConcat(a[1..], b, stack + [InObject]);
      case EndArray =>
        if |stack| > 0 && stack[|stack| - 1] == InArray {
          NestConcat(a[1..], b, stack[..|stack| - 1]);
        }
      case EndObject =>
        if |stack| > 0 && stack[|stack| - 1] == InObject {
          NestConcat(a[1..], b, stack[..|stack| - 1]);
        }
      case _ => NestConcat(a[1..], b, stack);
    } else {
      assert a + b == b;
    }
  }

  /** Containers a trace opens and closes by itself do not disturb the ones around it. */
  lemma {:induction false} NestLift(ev: seq<Event>, base: seq<Frame>, outer: seq<Frame>)
    requires Nest(ev, base).Some?
    ensures Nest(ev, outer + base) == Some(outer + Nest(ev, base).value)
    decreases |ev|
  {
    if |ev| > 0 {
      match ev[0]
      case StartArray =>
        NestLift(ev[1..], base + [InArray], outer);
        assert outer + base + [InArray] == outer + (base + [InArray]);
      case StartObject =>
        NestLift(ev[1..], base + [InObject], outer);
        assert outer + base + [InObject] == outer + (base + [InObject]);
      case EndArray =>
        NestLift(ev[1..], base[..|base| - 1], outer);
        assert (outer + base)[..|outer + base| - 1] == outer + base[..|base| - 1];
      case EndObject =>
        NestLift(ev[1..], base[..|base| - 1], outer);
        assert (outer + base)[..|outer + base| - 1] == outer + base[..|base| - 1];
      case _ => NestLift(ev[1..], base, outer);
    }
  }

  lemma BalancedConcat(a: seq<Event>, b: seq<Event>)
    requires Balanced(a) && Balanced(b)
    ensures Balanced(a + b)
  {
    NestConcat(a, b, []);
  }

  lemma NestOpen(open: Event, frame: Frame, rest: seq<Event>, stack: seq<Frame>)
    requires (open, frame) == (StartArray, InArray) || (open, frame) == (StartObject, InObject)
    ensures Nest([open] + rest, stack) == Nest(rest, stack + [frame])
  {
    assert ([open] + rest)[1..] == rest;
  }

  lemma NestClose(close: Event, frame: Frame, stack: seq<Frame>)
    requires (close, frame) == (EndArray, InArray) || (close, frame) == (EndObject, InObject)
    ensures Nest([close], stack + [frame]) == Some(stack)
  {
    assert (stack + [frame])[..|stack|] == stack;
    assert [close][1..] == [];
  }

  lemma BalancedWrap(open: Event, inner: seq<Event>, close: Event, frame: Frame)
    requires (open, close, frame) == (StartArray, EndArray, InArray) || (open, close, frame) == (StartObject, EndObject, InObject)
    requires Balanced(inner)
    ensures Balanced([open] + inner + [close])
  {
    assert [open] + inner + [close] == [open] + (inner + [close]);
    NestOpen(open, frame, inner + [close], []);
    assert [] + [frame] == [frame];
    NestConcat(inner, [close], [frame]);
    NestLift(inner, [], [frame]);
    assert [frame] + [] == [frame];
    NestClose(close, frame, []);
  }

  lemma {:induction false} EncodeBalanced(j: Json)
    ensures Balanced(Encode(j))
    decreases j, 1
  {
    match j
    case JArray(items) =>
      EncodeItemsBalanced(items);
      BalancedWrap(StartArray, EncodeItems(items), EndArray, InArray);
    case JObject(members) =>
      EncodeMembersBalanced(members);
      BalancedWrap(StartObject, EncodeMembers(members), EndObject, InObject);
    case JString(_) =>
    case JPojo(_) =>
    case JNull =>
  }

  lemma {:induction false} EncodeItemsBalanced(items: seq<Json>)
    ensures Balanced(EncodeItems(items))
    decreases items, 0
  {
    if |items| > 0 {
      EncodeBalanced(items[0]);
      EncodeItemsBalanced(items[1..]);
      BalancedConcat(Encode(items[0]), EncodeItems(items[1..]));
    }
  }

  lemma {:induction false} EncodeMembersBalanced(members: seq<Member>)
    ensures Balanced(EncodeMembers(members))
    decreases members, 0
  {
    if |members| > 0 {
      EncodeBalanced(members[0].value);
      EncodeMembersBalanced(members[1..]);
      BalancedConcat([Field(members[0].name)], Encode(members[0].value));
      BalancedConcat([Field(members[0].name)] + Encode(members[0].value), EncodeMembers(members[1..]));
    }
  }
}
