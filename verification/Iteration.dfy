/**
 `RLMIterator` (RealmSwift/RealmCollection.swift) and the coding loops built on
 it and on `append` (RealmSwift/List.swift). The collection does not change
 while it is enumerated.
 */
module Iteration {
  import opened Outcomes
  import opened Bridging
  import opened Lists

  /** What `next()` gives: no element, an element (which may itself be nil), or a crash. */
  datatype Step = End | Yielded(value: Value) | Trapped

  predicate Readable(o: ObjC, t: Type) {
    ToSwift(o, t).Some?
  }

  /** The storage holds objects of the list's own class only. */
  predicate WellKept(c: seq<ObjC>, t: Type) {
    forall i :: 0 <= i < |c| && c[i].RLMObject? ==> Readable(c[i], t) && ToSwift(c[i], t).value.Reference?
  }

  /** What iteration gives for a stored object: what the subscript gives. */
  function Read(o: ObjC, t: Type): Step {
    match ToSwift(o, t)
    case None => Trapped
    case Some(v) => Yielded(v)
  }

  predicate AllReadable(c: seq<ObjC>, t: Type) {
    forall i :: 0 <= i < |c| ==> Readable(c[i], t)
  }

  /** The collection as subscripting shows it. */
  function Subscripted(c: seq<ObjC>, t: Type): (r: seq<Value>)
    requires AllReadable(c, t)
    ensures |r| == |c|
  {
    seq(|c|, i requires 0 <= i < |c| => ToSwift(c[i], t).value)
  }

  class RlmIterator {
    const collection: seq<ObjC>
    const element: Type
    var position: nat

    constructor (collection: seq<ObjC>, element: Type)
      ensures this.collection == collection && this.element == element && position == 0
    {
      this.collection, this.element, position := collection, element, 0;
    }

    /** The fast enumeration underneath: the stored object, or nothing at the end. */
    method NextObject() returns (next: Option<ObjC>)
      requires position <= |collection|
      modifies this
      ensures position == if old(position) < |collection| then old(position) + 1 else old(position)
      ensures next == if old(position) < |collection| then Some(collection[old(position)]) else None
    {
      if position == |collection| {
        return None;
      }
      next := Some(collection[position]);
      position := position + 1;
    }

    method Next() returns (step: Step)
      requires position <= |collection| && WellKept(collection, element)
      modifies this
      ensures position == if old(position) < |collection| then old(position) + 1 else old(position)
      ensures step == if old(position) < |collection| then Read(collection[old(position)], element) else End
    {
      var next := NextObject();
      match next
      case Some(NSNull) =>
        NullReads(element);
        step := if element.Optional? then Yielded(Nil) else Trapped;
      case Some(RLMObject(id, name)) =>
        ObjectReads(id, name, element);
        step := Yielded(Reference(id, name));
      case None =>
        step := End;
      case Some(o) =>
        var value := ToSwift(o, Optional(element));
        step := if value.Some? then Yielded(value.value.value) else Trapped;
    }
  }

  lemma NullReads(t: Type)
    ensures ToSwift(NSNull, t) == if t.Optional? then Some(Nil) else None
  {
  }

  lemma ObjectReads(id: nat, name: string, t: Type)
    requires Readable(RLMObject(id, name), t) && ToSwift(RLMObject(id, name), t).value.Reference?
    ensures ToSwift(RLMObject(id, name), t) == Some(Reference(id, name))
  {
  }

  /**
   `for value in collection`: exactly the subscripted elements in order, as many as
   there are; it crashes only where subscripting would, at the first such element.
   */
  method Iterate(collection: seq<ObjC>, element: Type) returns (values: seq<Value>, trapped: bool)
    requires WellKept(collection, element)
    ensures !trapped <==> AllReadable(collection, element)
    ensures !trapped ==> values == Subscripted(collection, element)
    ensures trapped ==>
      && |values| < |collection| && AllReadable(collection[..|values|], element)
      && values == Subscripted(collection[..|values|], element)
      && !Readable(collection[|values|], element)
  {
    values, trapped := [], false;
    var generator := new RlmIterator(collection, element);
    var step := generator.Next();
    while !step.End?
      invariant generator.collection == collection && generator.element == element
      invariant generator.position <= |collection|
      invariant ReadSoFar(collection, element, values)
      invariant generator.position == if step.End? then |collection| else |values| + 1
      invariant step == if |values| < |collection| then Read(collection[|values|], element) else End
      decreases |collection| - |values|
    {
      if step.Trapped? {
        ReadIsSubscripted(collection, element, values);
        return values, true;
      }
      values := values + [step.value];
      step := generator.Next();
    }
    ReadIsSubscripted(collection, element, values);
    assert collection[..|collection|] == collection;
  }

  /** The values are what the first positions read as. */
  ghost predicate ReadSoFar(c: seq<ObjC>, t: Type, values: seq<Value>) {
    |values| <= |c| && forall i :: 0 <= i < |values| ==> ToSwift(c[i], t) == Some(values[i])
  }

  lemma {:induction false} ReadIsSubscripted(c: seq<ObjC>, t: Type, values: seq<Value>)
    requires ReadSoFar(c, t, values)
    ensures AllReadable(c[..|values|], t) && values == Subscripted(c[..|values|], t)
  {
    var seen := c[..|values|];
    forall i | 0 <= i < |values|
      ensures ToSwift(seen[i], t) == Some(values[i])
    {
      assert seen[i] == c[i];
    }
  }

  // Coding

  datatype Coding = Finished | Threw | Crashed

  /** An element codec: `None` is a thrown error. */
  datatype Codec<!E> = Codec(encode: Value -> Option<E>, decode: E -> Option<Value>)

  /** Decoding undoes encoding on every value of the type. */
  ghost predicate Undoes<E(!new)>(codec: Codec<E>, t: Type) {
    forall v :: HasType(v, t) && codec.encode(v).Some? ==> codec.decode(codec.encode(v).value) == Some(v)
  }

  /** Element `i` can be read and its encoding does not throw. */
  ghost predicate Encodes<E>(list: seq<ObjC>, i: nat, t: Type, codec: Codec<E>)
    requires i < |list|
  {
    Readable(list[i], t) && codec.encode(ToSwift(list[i], t).value).Some?
  }

  ghost predicate AllDecode<E>(items: seq<E>, codec: Codec<E>) {
    forall i :: 0 <= i < |items| ==> codec.decode(items[i]).Some?
  }

  /** `items` are the encodings of the first elements of `list`. */
  ghost predicate EncodedAs<E>(list: seq<ObjC>, items: seq<E>, t: Type, codec: Codec<E>) {
    && |items| <= |list|
    && forall i :: 0 <= i < |items| ==>
         Encodes(list, i, t, codec) && codec.encode(ToSwift(list[i], t).value) == Some(items[i])
  }

  ghost predicate StoredFrom<E>(items: seq<E>, objects: seq<ObjC>, codec: Codec<E>) {
    && |objects| == |items|
    && forall i :: 0 <= i < |items| ==>
         codec.decode(items[i]).Some? && objects[i] == FromSwift(codec.decode(items[i]).value)
  }

  lemma EncodedGrows<E>(list: seq<ObjC>, items: seq<E>, t: Type, codec: Codec<E>, item: E)
    requires EncodedAs(list, items, t, codec) && |items| < |list| && Encodes(list, |items|, t, codec)
    requires codec.encode(ToSwift(list[|items|], t).value) == Some(item)
    ensures EncodedAs(list, items + [item], t, codec)
  {
  }

  /** `List.encode(to:)`: the container's items when the loop ends, and how it ended. */
  method EncodeList<E>(list: seq<ObjC>, element: Type, codec: Codec<E>) returns (container: seq<E>, end: Coding)
    requires WellKept(list, element)
    ensures EncodedAs(list, container, element, codec)
    ensures end.Finished? <==> |container| == |list|
    ensures !end.Finished? ==> !Encodes(list, |container|, element, codec)
    ensures !end.Finished? ==> (end.Threw? <==> Readable(list[|container|], element))
  {
    container := [];
    var generator := new RlmIterator(list, element);
    var step := generator.Next();
    while !step.End?
      invariant generator.collection == list && generator.element == element
      invariant EncodedAs(list, container, element, codec)
      invariant generator.position == if step.End? then |list| else |container| + 1
      invariant generator.position <= |list|
      invariant step == if |container| < |list| then Read(list[|container|], element) else End
      decreases |list| - |container|
    {
      if step.Trapped? {
        return container, Crashed;
      }
      var encoded := codec.encode(step.value);
      if encoded.None? {
        return container, Threw;
      }
      EncodedGrows(list, container, element, codec, encoded.value);
      container := container + [encoded.value];
      step := generator.Next();
    }
    end := Finished;
  }

  /** `List.init(from:)`: the loop ends because each turn consumes an item. */
  method DecodeList<E>(container: seq<E>, codec: Codec<E>) returns (list: RlmArray<ObjC>, end: Coding)
    ensures fresh(list) && !end.Crashed?
    ensures end.Finished? <==> AllDecode(container, codec)
    ensures end.Finished? ==> StoredFrom(container, list.backing, codec)
  {
    list := new RlmArray();
    var position := 0;
    while position < |container|
      invariant fresh(list) && position == |list.backing| <= |container|
      invariant forall i :: 0 <= i < position ==>
        codec.decode(container[i]).Some? && list.backing[i] == FromSwift(codec.decode(container[i]).value)
    {
      var value := codec.decode(container[position]);
      if value.None? {
        return list, Threw;
      }
      position := position + 1;
      list.AddObject(FromSwift(value.value));
    }
    end := Finished;
  }

  /**
   Decoding what was encoded gives a list with the same elements, for every list;
   the stored objects are the same ones exactly when no element was read inexactly.
   */
  lemma {:induction false} CodingRoundTrip<E(!new)>(list: seq<ObjC>, t: Type, codec: Codec<E>, items: seq<E>,
                                                    copy: seq<ObjC>)
    requires Supported(t) && Undoes(codec, t)
    requires EncodedAs(list, items, t, codec) && |items| == |list| && StoredFrom(items, copy, codec)
    ensures AllReadable(list, t) && AllReadable(copy, t) && Subscripted(copy, t) == Subscripted(list, t)
    ensures copy == list <==> forall i :: 0 <= i < |list| ==> Exact(list[i], Core(t))
  {
    forall i | 0 <= i < |list|
      ensures Readable(list[i], t) && ToSwift(copy[i], t) == ToSwift(list[i], t)
      ensures copy[i] == list[i] <==> Exact(list[i], Core(t))
    {
      CodedElement(list, t, codec, items, copy, i);
    }
    assert Subscripted(copy, t) == Subscripted(list, t);
    assert (forall i :: 0 <= i < |list| ==> copy[i] == list[i]) ==> copy == list;
  }

  lemma {:induction false} CodedElement<E(!new)>(list: seq<ObjC>, t: Type, codec: Codec<E>, items: seq<E>,
                                                 copy: seq<ObjC>, i: nat)
    requires Supported(t) && Undoes(codec, t) && i < |list|
    requires EncodedAs(list, items, t, codec) && |items| == |list| && StoredFrom(items, copy, codec)
    ensures Readable(list[i], t) && ToSwift(copy[i], t) == ToSwift(list[i], t)
    ensures copy[i] == list[i] <==> Exact(list[i], Core(t))
  {
    assert Encodes(list, i, t, codec);
    var v := ToSwift(list[i], t).value;
    ReadThenWrite(list[i], t);
    ReadIsStable(list[i], t);
    assert codec.encode(v) == Some(items[i]);
  }

  /** Every decodable container gives a list whose elements are the decoded values, nested nils collapsed. */
  lemma {:induction false} DecodedElements<E>(items: seq<E>, t: Type, codec: Codec<E>, objects: seq<ObjC>)
    requires Supported(t) && StoredFrom(items, objects, codec)
    requires forall i :: 0 <= i < |items| ==> HasType(codec.decode(items[i]).value, t)
    ensures AllReadable(objects, t)
    ensures forall i :: 0 <= i < |items| ==> Subscripted(objects, t)[i] == Collapse(codec.decode(items[i]).value)
  {
    forall i | 0 <= i < |items|
      ensures ToSwift(objects[i], t) == Some(Collapse(codec.decode(items[i]).value))
    {
      BridgeRoundTrip(codec.decode(items[i]).value, t);
    }
  }
}
