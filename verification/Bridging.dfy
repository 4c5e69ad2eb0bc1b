/**
 The bridge casts between Swift values and the Objective-C objects the storage
 holds, RealmSwift/Util.swift. Casts dispatch on the static Swift type, so the
 type is a value here; a cast that traps yields `None`. Floating-point rounding
 is not modelled: every number is an exact real.
 */
module Bridging {
  import opened Outcomes

  /** A Swift element type. `Int` is not one of the fixed-width types: it is cast, not bridged. */
  datatype Type =
    | Int
    | Fixed(bits: nat)
    | Float
    | Double
    | Bool
    | Foundation(kind: nat)
    | Object(className: string)
    | Enum(rawType: Type, raws: set<Value>)
    | Optional(wrapped: Type)

  datatype Value =
    | Integer(n: int)
    | Floating(x: real)
    | Boolean(b: bool)
    | Plain(kind: nat, content: nat)
    | Reference(id: nat, className: string)
    | Case(raw: Value)
    | Nil
    | Just(value: Value)

  datatype ObjC =
    | NSNull
    | NSNumber(amount: real)
    | NSValue(kind: nat, content: nat)
    | RLMObject(id: nat, className: string)

  function Half(bits: nat): (r: int)
    ensures r >= 1
  {
    if bits <= 1 then 1 else 2 * Half(bits - 1)
  }

  lemma {:induction false} EightMoreBits(n: nat)
    requires n >= 1
    ensures Half(n + 8) == 256 * Half(n)
  {
    assert Half(n + 1) == 2 * Half(n) && Half(n + 2) == 2 * Half(n + 1);
    assert Half(n + 3) == 2 * Half(n + 2) && Half(n + 4) == 2 * Half(n + 3);
    assert Half(n + 5) == 2 * Half(n + 4) && Half(n + 6) == 2 * Half(n + 5);
    assert Half(n + 7) == 2 * Half(n + 6) && Half(n + 8) == 2 * Half(n + 7);
  }

  /** The ranges of the fixed-width integers. */
  lemma {:induction false} Widths()
    ensures Half(8) == 0x80 && Half(16) == 0x8000
    ensures Half(32) == 0x8000_0000 && Half(64) == 0x8000_0000_0000_0000
  {
    assert Half(2) == 2 * Half(1) && Half(4) == 4 * Half(2) && Half(6) == 4 * Half(4) && Half(8) == 4 * Half(6);
    EightMoreBits(8);
    EightMoreBits(16);
    EightMoreBits(24);
    EightMoreBits(32);
    EightMoreBits(40);
    EightMoreBits(48);
    EightMoreBits(56);
  }

  predicate FitsIn(n: int, bits: nat) {
    -Half(bits) <= n < Half(bits)
  }

  /** Two's-complement truncation, as `int8Value` and its siblings do: the one number in range congruent to `n`. */
  function Wrap(n: int, bits: nat): (r: int)
    ensures FitsIn(r, bits)
    ensures r == n <==> FitsIn(n, bits)
    ensures (r + Half(bits)) % (2 * Half(bits)) == (n + Half(bits)) % (2 * Half(bits))
  {
    var h := Half(bits);
    Remainder(n + h, 2 * h);
    Remainder((n + h) % (2 * h), 2 * h);
    (n + h) % (2 * h) - h
  }

  lemma Remainder(n: int, d: int)
    requires d > 0
    ensures 0 <= n % d < d && (n % d == n <==> 0 <= n < d)
  {
  }

  /** The fraction is cut off. */
  function TowardZero(x: real): (n: int)
    ensures x >= 0.0 ==> n as real <= x < n as real + 1.0
    ensures x <= 0.0 ==> n as real - 1.0 < x <= n as real
  {
    if x < 0.0 then -((-x).Floor) else x.Floor
  }

  predicate IsScalar(t: Type) {
    !t.Optional? && !t.Enum? && !t.Object?
  }

  /** Raw types of enums are stored property types that are themselves neither enums nor optionals. */
  predicate Supported(t: Type) {
    match t
    case Enum(raw, raws) => IsScalar(raw) && forall v :: v in raws ==> HasType(v, raw)
    case Optional(wrapped) => Supported(wrapped)
    case _ => true
  }

  predicate HasType(v: Value, t: Type)
    decreases t
  {
    match t
    case Int => v.Integer? && FitsIn(v.n, 64)
    case Fixed(bits) => v.Integer? && FitsIn(v.n, bits)
    case Float => v.Floating?
    case Double => v.Floating?
    case Bool => v.Boolean?
    case Foundation(kind) => v.Plain? && v.kind == kind
    case Object(name) => v.Reference? && v.className == name
    case Enum(raw, raws) => v.Case? && v.raw in raws
    case Optional(wrapped) => v.Nil? || (v.Just? && HasType(v.value, wrapped))
  }

  /** `dynamicBridgeCast(fromSwift:)`. */
  function FromSwift(v: Value): ObjC {
    match v
    case Integer(n) => NSNumber(n as real)
    case Floating(x) => NSNumber(x)
    case Boolean(b) => NSNumber(if b then 1.0 else 0.0)
    case Plain(kind, content) => NSValue(kind, content)
    case Reference(id, name) => RLMObject(id, name)
    case Case(raw) => FromSwift(raw)
    case Nil => NSNull
    case Just(value) => FromSwift(value)
  }

  /** `x as! T` for a scalar or object type: numbers must be exactly representable. */
  function Cast(o: ObjC, t: Type): Option<Value>
    requires !t.Optional? && !t.Enum?
  {
    match t
    case Int => CastInteger(o, 64)
    case Fixed(bits) => CastInteger(o, bits)
    case Float => if o.NSNumber? then Some(Floating(o.amount)) else None
    case Double => if o.NSNumber? then Some(Floating(o.amount)) else None
    case Bool =>
      if o == NSNumber(0.0) then Some(Boolean(false))
      else if o == NSNumber(1.0) then Some(Boolean(true))
      else None
    case Foundation(kind) => if o.NSValue? && o.kind == kind then Some(Plain(kind, o.content)) else None
    case Object(name) => if o.RLMObject? && o.className == name then Some(Reference(o.id, name)) else None
  }

  function CastInteger(o: ObjC, bits: nat): Option<Value> {
    if o.NSNumber? && o.amount == o.amount.Floor as real && FitsIn(o.amount.Floor, bits)
    then Some(Integer(o.amount.Floor))
    else None
  }

  /** `dynamicBridgeCast(fromObjectiveC:)`; fixed-width integers and `Float` go through `NSNumber`. */
  function ToSwift(o: ObjC, t: Type): Option<Value> {
    match t
    case Optional(wrapped) =>
      if o.NSNull? then Some(Nil) else
      (match ToSwift(o, wrapped)
       case None => None
       case Some(v) => Some(Just(v)))
    case Fixed(bits) => if o.NSNumber? then Some(Integer(Wrap(TowardZero(o.amount), bits))) else None
    case Enum(raw, raws) =>
      if !IsScalar(raw) then None else
      (match Cast(o, raw)
       case None => None
       case Some(v) => if v in raws then Some(Case(v)) else None)
    case _ => Cast(o, t)
  }

  // What the round trips mean

  /** A nil reached through any number of `.some`. */
  predicate Bottomless(v: Value) {
    v.Nil? || (v.Just? && Bottomless(v.value))
  }

  /** Some `.some` in `v` wraps a nil. */
  predicate NilUnderSome(v: Value) {
    v.Just? && (v.value.Nil? || NilUnderSome(v.value))
  }

  function Collapse(v: Value): Value {
    if Bottomless(v) then Nil else v
  }

  /** The innermost type of a nest of optionals. */
  function Core(t: Type): Type {
    match t
    case Optional(wrapped) => Core(wrapped)
    case _ => t
  }

  lemma {:induction false} OnlyNilIsNull(v: Value, t: Type)
    requires HasType(v, t) && Supported(t)
    ensures FromSwift(v).NSNull? <==> Bottomless(v)
    decreases t
  {
    if t.Optional? && v.Just? {
      OnlyNilIsNull(v.value, t.wrapped);
    } else if t.Enum? {
      assert HasType(v.raw, t.rawType);
    }
  }

  lemma CastUndoesBridge(v: Value, t: Type)
    requires IsScalar(t) || t.Object?
    requires HasType(v, t)
    ensures Cast(FromSwift(v), t) == Some(v)
  {
  }

  lemma WholeNumber(n: int)
    ensures TowardZero(n as real) == n
  {
  }

  /** Swift to Objective-C and back, for every supported type: nested nils collapse to the outermost. */
  lemma {:induction false} BridgeRoundTrip(v: Value, t: Type)
    requires HasType(v, t) && Supported(t)
    ensures ToSwift(FromSwift(v), t) == Some(Collapse(v))
    decreases t
  {
    OnlyNilIsNull(v, t);
    match t
    case Optional(wrapped) =>
      if v.Just? {
        BridgeRoundTrip(v.value, wrapped);
      }
    case Fixed(bits) => WholeNumber(v.n);
    case Enum(raw, raws) => CastUndoesBridge(v.raw, raw);
    case _ => CastUndoesBridge(v, t);
  }

  /** Numbers keep their value across types: what is stored for one can be read as another. */
  lemma {:induction false} NumbersCrossTypes(n: int, b: bool)
    ensures FitsIn(n, 64) ==> ToSwift(FromSwift(Integer(n)), Int) == Some(Integer(n))
    ensures ToSwift(FromSwift(Integer(n)), Double) == Some(Floating(n as real))
    ensures ToSwift(FromSwift(Boolean(b)), Fixed(8)) == Some(Integer(if b then 1 else 0))
    ensures ToSwift(FromSwift(Integer(n)), Bool) == if n == 0 then Some(Boolean(false))
                                                    else if n == 1 then Some(Boolean(true)) else None
  {
    Widths();
    WholeNumber(if b then 1 else 0);
  }

  lemma {:induction false} BottomlessHasNilUnderSome(v: Value)
    ensures v.Just? ==> (Bottomless(v) <==> NilUnderSome(v))
  {
    if v.Just? && v.value.Just? {
      BottomlessHasNilUnderSome(v.value);
    }
  }

  /** The round trip is the identity exactly on the values with no nil under a `.some`. */
  lemma {:induction false} BridgeIsIdentity(v: Value, t: Type)
    requires HasType(v, t) && Supported(t)
    ensures ToSwift(FromSwift(v), t) == Some(v) <==> !NilUnderSome(v)
  {
    BridgeRoundTrip(v, t);
    BottomlessHasNilUnderSome(v);
  }

  /** Bridging forgets nothing except how deep a nil was. */
  lemma {:induction false} BridgeForgetsOnlyDepth(v: Value, w: Value, t: Type)
    requires HasType(v, t) && HasType(w, t) && Supported(t)
    ensures FromSwift(v) == FromSwift(w) <==> Collapse(v) == Collapse(w)
  {
    BridgeRoundTrip(v, t);
    BridgeRoundTrip(w, t);
    OnlyNilIsNull(v, t);
    OnlyNilIsNull(w, t);
  }

  /** The number survives being read at a fixed width. */
  predicate Exact(o: ObjC, t: Type) {
    t.Fixed? && o.NSNumber? ==> o.amount == o.amount.Floor as real && FitsIn(o.amount.Floor, t.bits)
  }

  lemma CastIsTyped(o: ObjC, t: Type)
    requires IsScalar(t) || t.Object?
    requires Cast(o, t).Some?
    ensures HasType(Cast(o, t).value, t) && FromSwift(Cast(o, t).value) == o
  {
  }

  lemma {:induction false} WrapsAway(x: real, bits: nat)
    ensures Wrap(TowardZero(x), bits) as real == x <==> x == x.Floor as real && FitsIn(x.Floor, bits)
  {
    if x == x.Floor as real {
      WholeNumber(x.Floor);
    }
  }

  /**
   Objective-C to Swift and back: whatever is read is typed and has no nil under
   a `.some`, and writing it back restores the object unless a fixed-width read
   wrapped or truncated it.
   */
  lemma {:induction false} ReadThenWrite(o: ObjC, t: Type)
    requires ToSwift(o, t).Some? && Supported(t)
    ensures HasType(ToSwift(o, t).value, t) && !NilUnderSome(ToSwift(o, t).value)
    ensures FromSwift(ToSwift(o, t).value) == o <==> Exact(o, Core(t))
  {
    match t
    case Optional(wrapped) =>
      if o.NSNull? {
        assert FromSwift(Nil) == o;
      } else {
        ReadThenWrite(o, wrapped);
        if ToSwift(o, wrapped).value.Nil? {
          NullReadsNil(o, wrapped);
        }
      }
    case Fixed(bits) => WrapsAway(o.amount, bits);
    case Enum(raw, raws) => CastIsTyped(o, raw);
    case _ => CastIsTyped(o, t);
  }

  lemma NullReadsNil(o: ObjC, t: Type)
    requires ToSwift(o, t) == Some(Nil)
    ensures o.NSNull?
  {
  }

  /** Reading again after writing back what was read gives the same value, even where the object changed. */
  lemma {:induction false} ReadIsStable(o: ObjC, t: Type)
    requires ToSwift(o, t).Some? && Supported(t)
    ensures ToSwift(FromSwift(ToSwift(o, t).value), t) == ToSwift(o, t)
  {
    ReadThenWrite(o, t);
    BridgeIsIdentity(ToSwift(o, t).value, t);
  }
}
