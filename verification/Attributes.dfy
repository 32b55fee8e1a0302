/** ompi/attribute/attribute.c: keyvals, the attributes that objects carry under them,
    and the keyvals' reference counts. */
module Attributes {

  datatype Kind = Comm | Win | Type

  datatype Keyval = Keyval(kind: Kind, predefined: bool, refs: int)

  /** An attribute: its value, and when it was set. */
  datatype Attr = Attr(value: int, sequence: nat)

  /** An object with its attributes by key. */
  datatype Object = Object(kind: Kind, attrs: map<nat, Attr>)

  datatype Ret = Success | BadParam | NotFound | OutOfResource | Callback

  // -------------------------------------------------------------------- the accounting

  /** The objects that carry an attribute under `key`. */
  function Carriers(objects: map<nat, Object>, key: nat): set<nat> {
    set o | o in objects && key in objects[o].attrs
  }

  /** A keyval's count is one for its creation, until that is freed, and one for each
      object that carries it, and it is never zero. */
  ghost predicate Conserved(keyvals: map<nat, Keyval>, objects: map<nat, Object>, freed: set<nat>) {
    forall key :: key in keyvals ==>
      keyvals[key].refs == (if key in freed then 0 else 1) + |Carriers(objects, key)| && keyvals[key].refs > 0
  }

  /** What objects carry is in the table of keyvals, and of the right kind. */
  ghost predicate Registered(keyvals: map<nat, Keyval>, objects: map<nat, Object>) {
    forall o, key :: o in objects && key in objects[o].attrs ==> key in keyvals && keyvals[key].kind == objects[o].kind
  }

  /** No two attributes of an object were set at the same time, and none will be set later. */
  ghost predicate Sequenced(attrs: map<nat, Attr>, sequence: nat) {
    && (forall key :: key in attrs ==> attrs[key].sequence < sequence)
    && (forall key, key' :: key in attrs && key' in attrs && key != key' ==> attrs[key].sequence != attrs[key'].sequence)
  }

  ghost predicate AllSequenced(objects: map<nat, Object>, sequence: nat) {
    forall o :: o in objects ==> Sequenced(objects[o].attrs, sequence)
  }

  function WithAttr(objects: map<nat, Object>, o: nat, key: nat, attr: Attr): map<nat, Object>
    requires o in objects
  {
    objects[o := objects[o].(attrs := objects[o].attrs[key := attr])]
  }

  function WithoutAttr(objects: map<nat, Object>, o: nat, key: nat): map<nat, Object>
    requires o in objects
  {
    objects[o := objects[o].(attrs := objects[o].attrs - {key})]
  }

  lemma CarriersWith(objects: map<nat, Object>, o: nat, key: nat, attr: Attr, k: nat)
    requires o in objects
    ensures Carriers(WithAttr(objects, o, key, attr), k) == Carriers(objects, k) + if k == key then {o} else {}
  {
  }

  lemma CarriersWithout(objects: map<nat, Object>, o: nat, key: nat, k: nat)
    requires o in objects
    ensures Carriers(WithoutAttr(objects, o, key), k) == Carriers(objects, k) - if k == key then {o} else {}
  {
  }

  /** A new attribute and one more reference. */
  lemma Attach(keyvals: map<nat, Keyval>, objects: map<nat, Object>, freed: set<nat>, o: nat, key: nat, attr: Attr)
    requires Conserved(keyvals, objects, freed) && o in objects && key in keyvals && key !in objects[o].attrs
    ensures Conserved(keyvals[key := keyvals[key].(refs := keyvals[key].refs + 1)], WithAttr(objects, o, key, attr), freed)
  {
    forall k | k in keyvals
      ensures |Carriers(WithAttr(objects, o, key, attr), k)| == |Carriers(objects, k)| + if k == key then 1 else 0
    {
      CarriersWith(objects, o, key, attr, k);
    }
  }

  /** Another value for an attribute that is there. */
  lemma Reset(keyvals: map<nat, Keyval>, objects: map<nat, Object>, freed: set<nat>, o: nat, key: nat, attr: Attr)
    requires Conserved(keyvals, objects, freed) && o in objects && key in objects[o].attrs
    ensures Conserved(keyvals, WithAttr(objects, o, key, attr), freed)
  {
    forall k | k in keyvals
      ensures Carriers(WithAttr(objects, o, key, attr), k) == Carriers(objects, k)
    {
      CarriersWith(objects, o, key, attr, k);
    }
  }

  lemma WithAttrRegistered(keyvals: map<nat, Keyval>, objects: map<nat, Object>, o: nat, key: nat, attr: Attr, refs: int)
    requires Registered(keyvals, objects) && o in objects && key in keyvals && keyvals[key].kind == objects[o].kind
    ensures Registered(keyvals[key := keyvals[key].(refs := refs)], WithAttr(objects, o, key, attr))
  {
  }

  lemma WithAttrSequenced(objects: map<nat, Object>, o: nat, key: nat, value: int, sequence: nat)
    requires AllSequenced(objects, sequence) && o in objects
    ensures AllSequenced(WithAttr(objects, o, key, Attr(value, sequence)), sequence + 1)
  {
    var after := WithAttr(objects, o, key, Attr(value, sequence));
    forall p | p in after
      ensures Sequenced(after[p].attrs, sequence + 1)
    {
      assert Sequenced(objects[p].attrs, sequence);
    }
  }

  lemma WithoutAttrSequenced(objects: map<nat, Object>, o: nat, key: nat, sequence: nat)
    requires AllSequenced(objects, sequence) && o in objects
    ensures AllSequenced(WithoutAttr(objects, o, key), sequence)
  {
    var after := WithoutAttr(objects, o, key);
    forall p | p in after
      ensures Sequenced(after[p].attrs, sequence)
    {
      assert Sequenced(objects[p].attrs, sequence);
    }
  }

  lemma Unchanged(keyvals: map<nat, Keyval>, key: nat)
    requires key in keyvals
    ensures keyvals[key := keyvals[key].(refs := keyvals[key].refs)] == keyvals
  {
  }

  /** OBJ_RELEASE of a keyval: the destructor takes it out of the table. */
  function Released(keyvals: map<nat, Keyval>, key: nat): map<nat, Keyval>
    requires key in keyvals
  {
    if keyvals[key].refs == 1 then keyvals - {key} else keyvals[key := keyvals[key].(refs := keyvals[key].refs - 1)]
  }

  /** An attribute less and a reference less. */
  lemma Detach(keyvals: map<nat, Keyval>, objects: map<nat, Object>, freed: set<nat>, o: nat, key: nat)
    requires Conserved(keyvals, objects, freed) && Registered(keyvals, objects)
    requires o in objects && key in keyvals && key in objects[o].attrs
    ensures Conserved(Released(keyvals, key), WithoutAttr(objects, o, key), freed * Released(keyvals, key).Keys)
    ensures Registered(Released(keyvals, key), WithoutAttr(objects, o, key))
  {
    forall k | k in keyvals
      ensures |Carriers(WithoutAttr(objects, o, key), k)| == |Carriers(objects, k)| - if k == key then 1 else 0
    {
      CarriersWithout(objects, o, key, k);
      assert o in Carriers(objects, key);
    }
    if keyvals[key].refs == 1 {
      LastCarrier(objects, o, key);
    }
  }

  lemma LastCarrier(objects: map<nat, Object>, o: nat, key: nat)
    requires o in objects && key in objects[o].attrs && |Carriers(objects, key)| <= 1
    ensures forall p :: p in WithoutAttr(objects, o, key) ==> key !in WithoutAttr(objects, o, key)[p].attrs
  {
    forall p | p in objects && p != o
      ensures key !in objects[p].attrs
    {
      if key in objects[p].attrs {
        assert {o, p} <= Carriers(objects, key);
        Cardinalities({o, p}, Carriers(objects, key));
        assert false;
      }
    }
  }

  lemma {:induction false} Cardinalities(a: set<nat>, b: set<nat>)
    requires a <= b
    ensures |a| <= |b|
  {
    if a != {} {
      var x :| x in a;
      Cardinalities(a - {x}, b - {x});
    }
  }

  /** Freeing the creation's reference keeps the account exactly when it was not freed before. */
  lemma FreeOnce(keyvals: map<nat, Keyval>, objects: map<nat, Object>, freed: set<nat>, key: nat)
    requires Conserved(keyvals, objects, freed) && Registered(keyvals, objects) && key in keyvals
    ensures var after := Released(keyvals, key);
            Conserved(after, objects, (freed + {key}) * after.Keys) && Registered(after, objects) <==> key !in freed
  {
    var after := Released(keyvals, key);
    if key !in freed && keyvals[key].refs == 1 {
      forall o | o in objects
        ensures key !in objects[o].attrs
      {
        assert key in objects[o].attrs ==> o in Carriers(objects, key);
      }
    } else if key in freed {
      assert Carriers(objects, key) != {};
      var o :| o in Carriers(objects, key);
      assert o in objects && key in objects[o].attrs;
    }
  }

  /** A keyval freed twice while one object carries it is gone from the table, with the attribute still there. */
  lemma FreedTwice()
    ensures var keyvals, objects := map[3 := Keyval(Comm, false, 1)], map[7 := Object(Comm, map[3 := Attr(0, 0)])];
            Conserved(keyvals, objects, {3}) && Registered(keyvals, objects) && !Registered(Released(keyvals, 3), objects)
  {
    var keyvals, objects := map[3 := Keyval(Comm, false, 1)], map[7 := Object(Comm, map[3 := Attr(0, 0)])];
    assert Carriers(objects, 3) == {7};
    assert 7 in objects && 3 in objects[7].attrs && 3 !in Released(keyvals, 3);
  }

  // --------------------------------------------------------------------- the order set

  /** The keys in the order in which their attributes were set. */
  ghost predicate InSetOrder(attrs: map<nat, Attr>, order: seq<nat>) {
    && (forall i :: 0 <= i < |order| ==> order[i] in attrs)
    && (forall i, j :: 0 <= i < j < |order| ==> attrs[order[i]].sequence < attrs[order[j]].sequence)
  }

  function FirstOf(attrs: map<nat, Attr>, n: nat, order: seq<nat>): map<nat, Attr>
    requires n <= |order|
  {
    map key | key in attrs && key in order[..n] :: attrs[key]
  }

  /** The delete callbacks for the last attribute down to number `from`. */
  function Backwards(o: nat, order: seq<nat>, from: nat): seq<(nat, nat)>
    requires from <= |order|
    decreases |order| - from
  {
    if from == |order| then [] else Backwards(o, order, from + 1) + [(o, order[from])]
  }

  /** What qsort() does with the array of all attributes. */
  method SortBySequence(attrs: map<nat, Attr>, ghost sequence: nat) returns (order: seq<nat>)
    requires Sequenced(attrs, sequence)
    ensures InSetOrder(attrs, order) && forall key :: key in attrs <==> key in order
  {
    order := [];
    var rest := attrs.Keys;
    while rest != {}
      invariant rest <= attrs.Keys && InSetOrder(attrs, order)
      invariant forall key :: key in attrs <==> key in rest || key in order
      invariant forall i, key :: 0 <= i < |order| && key in rest ==> attrs[order[i]].sequence < attrs[key].sequence
      decreases |rest|
    {
      var first := Earliest(attrs, rest, sequence);
      order, rest := order + [first], rest - {first};
    }
  }

  method Earliest(attrs: map<nat, Attr>, keys: set<nat>, ghost sequence: nat) returns (first: nat)
    requires keys != {} && keys <= attrs.Keys && Sequenced(attrs, sequence)
    ensures first in keys && forall key :: key in keys && key != first ==> attrs[first].sequence < attrs[key].sequence
  {
    first :| first in keys;
    var rest := keys - {first};
    while rest != {}
      invariant rest <= keys && first in keys && first !in rest
      invariant forall key :: key in keys && key !in rest && key != first ==> attrs[first].sequence < attrs[key].sequence
      decreases |rest|
    {
      var key :| key in rest;
      rest := rest - {key};
      if attrs[key].sequence < attrs[first].sequence {
        first := key;
      }
    }
  }

  /** The whole account. */
  ghost predicate Account(keyvals: map<nat, Keyval>, objects: map<nat, Object>, freed: set<nat>, sequence: nat) {
    Conserved(keyvals, objects, freed) && Registered(keyvals, objects) && AllSequenced(objects, sequence)
  }

  lemma CarriersNew(objects: map<nat, Object>, o: nat, kind: Kind, key: nat)
    requires o !in objects
    ensures Carriers(objects[o := Object(kind, map[])], key) == Carriers(objects, key)
  {
  }

  lemma NewObjectConserved(keyvals: map<nat, Keyval>, objects: map<nat, Object>, freed: set<nat>, o: nat, kind: Kind)
    requires Conserved(keyvals, objects, freed) && o !in objects
    ensures Conserved(keyvals, objects[o := Object(kind, map[])], freed)
  {
    forall key | key in keyvals
      ensures Carriers(objects[o := Object(kind, map[])], key) == Carriers(objects, key)
    {
      CarriersNew(objects, o, kind, key);
    }
  }

  lemma NewObjectKeeps(keyvals: map<nat, Keyval>, objects: map<nat, Object>, freed: set<nat>, sequence: nat, o: nat, kind: Kind)
    requires Account(keyvals, objects, freed, sequence) && o !in objects
    ensures Account(keyvals, objects[o := Object(kind, map[])], freed, sequence)
  {
    NewObjectConserved(keyvals, objects, freed, o, kind);
    assert Sequenced(map[], sequence);
  }

  /** The keyvals when `o` gets a value under `key`: one more reference if it had none. */
  function Referenced(keyvals: map<nat, Keyval>, objects: map<nat, Object>, o: nat, key: nat): map<nat, Keyval>
    requires o in objects && key in keyvals
  {
    if key in objects[o].attrs then keyvals else keyvals[key := keyvals[key].(refs := keyvals[key].refs + 1)]
  }

  /** The account after a value has been set. */
  lemma StoreKeeps(keyvals: map<nat, Keyval>, objects: map<nat, Object>, freed: set<nat>, sequence: nat, o: nat, key: nat, value: int)
    requires Account(keyvals, objects, freed, sequence) && o in objects && key in keyvals && keyvals[key].kind == objects[o].kind
    ensures Account(Referenced(keyvals, objects, o, key), WithAttr(objects, o, key, Attr(value, sequence)), freed, sequence + 1)
  {
    var attr := Attr(value, sequence);
    WithAttrSequenced(objects, o, key, value, sequence);
    if key in objects[o].attrs {
      Reset(keyvals, objects, freed, o, key, attr);
      WithAttrRegistered(keyvals, objects, o, key, attr, keyvals[key].refs);
      Unchanged(keyvals, key);
    } else {
      Attach(keyvals, objects, freed, o, key, attr);
      WithAttrRegistered(keyvals, objects, o, key, attr, keyvals[key].refs + 1);
    }
  }

  // --------------------------------------------------------------------- the engine

  /** Keyvals stay what they are, and go only when their handle was freed. */
  ghost predicate Kept(keyvals: map<nat, Keyval>, keyvals': map<nat, Keyval>, freed: set<nat>, freed': set<nat>) {
    && keyvals'.Keys <= keyvals.Keys && freed' == freed * keyvals'.Keys
    && (forall key :: key in keyvals && key !in freed ==> key in keyvals')
    && (forall key :: key in keyvals' ==> keyvals'[key].kind == keyvals[key].kind && keyvals'[key].predefined == keyvals[key].predefined)
  }

  lemma KeptTwice(keyvals: map<nat, Keyval>, keyvals': map<nat, Keyval>, keyvals'': map<nat, Keyval>,
                  freed: set<nat>, freed': set<nat>, freed'': set<nat>)
    requires Kept(keyvals, keyvals', freed, freed') && Kept(keyvals', keyvals'', freed', freed'')
    ensures Kept(keyvals, keyvals'', freed, freed'')
  {
  }

  lemma ReferencedKept(keyvals: map<nat, Keyval>, objects: map<nat, Object>, freed: set<nat>, o: nat, key: nat)
    requires o in objects && key in keyvals && freed <= keyvals.Keys
    ensures var keyvals' := Referenced(keyvals, objects, o, key); keyvals'.Keys == keyvals.Keys && Kept(keyvals, keyvals', freed, freed)
  {
  }

  lemma ReleasedKept(keyvals: map<nat, Keyval>, objects: map<nat, Object>, freed: set<nat>, o: nat, key: nat)
    requires Conserved(keyvals, objects, freed) && key in keyvals && o in objects && key in objects[o].attrs && freed <= keyvals.Keys
    ensures var keyvals' := Released(keyvals, key); Kept(keyvals, keyvals', freed, freed * keyvals'.Keys)
  {
    assert o in Carriers(objects, key);
    assert |Carriers(objects, key)| >= 1;
  }

  /** The state of the engine. */
  datatype State = State(keyvals: map<nat, Keyval>, objects: map<nat, Object>, freed: set<nat>, sequence: nat, deletions: seq<(nat, nat)>)

  class Engine {
    const maxKeys: nat
    var keyvals: map<nat, Keyval>
    var bitmap: set<nat>
    var sequence: nat
    var objects: map<nat, Object>
    /** Keyvals whose handle has been set to MPI_KEYVAL_INVALID. */
    var freed: set<nat>
    /** The delete callbacks made, by object and key. */
    ghost var deletions: seq<(nat, nat)>

    ghost predicate Valid()
      reads this
    {
      bitmap == keyvals.Keys && freed <= keyvals.Keys && Account(keyvals, objects, freed, sequence)
    }

    ghost function Now(): State
      reads this
    {
      State(keyvals, objects, freed, sequence, deletions)
    }

    constructor (maxKeys: nat)
      ensures Valid() && this.maxKeys == maxKeys && Now() == State(map[], map[], {}, 0, [])
    {
      this.maxKeys := maxKeys;
      keyvals, bitmap, sequence, objects, freed, deletions := map[], {}, 0, map[], {}, [];
    }

    method AddObject(o: nat, kind: Kind)
      requires Valid() && o !in objects
      modifies this`objects
      ensures Valid() && objects == old(objects)[o := Object(kind, map[])]
    {
      NewObjectKeeps(keyvals, objects, freed, sequence, o, kind);
      objects := objects[o := Object(kind, map[])];
    }

    /** ompi_attr_create_keyval: the first free key, with one reference. */
    method CreateKeyval(kind: Kind, predefined: bool) returns (ret: Ret, key: nat)
      requires Valid()
      modifies this`keyvals, this`bitmap
      ensures Valid() && (ret == Success || ret == OutOfResource)
      ensures ret == Success ==> key !in old(keyvals) && keyvals == old(keyvals)[key := Keyval(kind, predefined, 1)] && key < maxKeys
      ensures ret == Success ==> forall k :: 0 <= k < key ==> k in old(keyvals)
      ensures ret == OutOfResource ==> keyvals == old(keyvals) && forall k :: 0 <= k < maxKeys ==> k in keyvals
    {
      key := 0;
      while key < maxKeys && key in bitmap
        invariant key <= maxKeys && forall k :: 0 <= k < key ==> k in bitmap
      {
        key := key + 1;
      }
      if key == maxKeys {
        return OutOfResource, 0;
      }
      assert Carriers(objects, key) == {};
      bitmap := bitmap + {key};
      keyvals := keyvals[key := Keyval(kind, predefined, 1)];
      ret := Success;
    }

    /** OBJ_RELEASE, with the keyval's destructor. */
    method Release(key: nat)
      requires key in keyvals && bitmap == keyvals.Keys
      modifies this`keyvals, this`bitmap
      ensures keyvals == Released(old(keyvals), key) && bitmap == keyvals.Keys
    {
      if keyvals[key].refs == 1 {
        keyvals, bitmap := keyvals - {key}, bitmap - {key};
      } else {
        keyvals := keyvals[key := keyvals[key].(refs := keyvals[key].refs - 1)];
      }
    }

    predicate Usable(kind: Kind, key: nat, predefined: bool)
      reads this
    {
      key in keyvals && keyvals[key].kind == kind && (predefined || !keyvals[key].predefined)
    }

    /** ompi_attr_free_keyval: the account stays right exactly when the keyval was not freed before. */
    method FreeKeyval(kind: Kind, key: nat, predefined: bool) returns (ret: Ret)
      requires Valid()
      modifies this`keyvals, this`bitmap, this`freed
      ensures ret == if old(Usable(kind, key, predefined)) then Success else BadParam
      ensures ret == BadParam ==> keyvals == old(keyvals) && freed == old(freed) && Valid()
      ensures ret == Success ==> keyvals == Released(old(keyvals), key) && freed == (old(freed) + {key}) * keyvals.Keys
      ensures ret == Success ==> (Valid() <==> key !in old(freed))
    {
      if !Usable(kind, key, predefined) {
        return BadParam;
      }
      FreeOnce(keyvals, objects, freed, key);
      Release(key);
      freed := (freed + {key}) * keyvals.Keys;
      ret := Success;
    }

    /** set_value; `deleted` is what the delete callback says of an attribute that is replaced. */
    method SetValue(o: nat, key: nat, value: int, predefined: bool, deleted: bool) returns (ret: Ret)
      requires Valid() && o in objects
      modifies this`keyvals, this`objects, this`sequence, this`deletions
      ensures Valid()
      ensures ret == if !old(Usable(objects[o].kind, key, predefined)) then BadParam
                     else if old(key in objects[o].attrs) && !deleted then Callback
                     else Success
      ensures ret != Success ==> objects == old(objects) && keyvals == old(keyvals) && sequence == old(sequence)
      ensures ret == Success ==> objects == WithAttr(old(objects), o, key, Attr(value, old(sequence)))
                                 && sequence == old(sequence) + 1
      ensures keyvals.Keys == old(keyvals.Keys) && Kept(old(keyvals), keyvals, freed, freed)
      ensures deletions == old(deletions) + if ret != BadParam && old(key in objects[o].attrs) then [(o, key)] else []
    {
      if !Usable(objects[o].kind, key, predefined) {
        return BadParam;
      }
      if key in objects[o].attrs {
        deletions := deletions + [(o, key)];
        if !deleted {
          return Callback;
        }
      }
      Store(o, key, value);
      ret := Success;
    }

    /** The end of set_value: the new attribute, and a reference if there was none. */
    method Store(o: nat, key: nat, value: int)
      requires Valid() && o in objects && key in keyvals && keyvals[key].kind == objects[o].kind
      modifies this`keyvals, this`objects, this`sequence
      ensures Valid() && objects == WithAttr(old(objects), o, key, Attr(value, old(sequence)))
      ensures sequence == old(sequence) + 1 && keyvals.Keys == old(keyvals.Keys) && Kept(old(keyvals), keyvals, freed, freed)
    {
      StoreKeeps(keyvals, objects, freed, sequence, o, key, value);
      ReferencedKept(keyvals, objects, freed, o, key);
      Refer(o, key);
      objects := WithAttr(objects, o, key, Attr(value, sequence));
      sequence := sequence + 1;
    }

    method Refer(o: nat, key: nat)
      requires o in objects && key in keyvals
      modifies this`keyvals
      ensures keyvals == Referenced(old(keyvals), objects, o, key)
    {
      if key !in objects[o].attrs {
        keyvals := keyvals[key := keyvals[key].(refs := keyvals[key].refs + 1)];
      }
    }

    /** ompi_attr_delete_impl. */
    method Delete(o: nat, key: nat, predefined: bool, deleted: bool) returns (ret: Ret)
      requires Valid() && o in objects
      modifies this`keyvals, this`bitmap, this`objects, this`freed, this`deletions
      ensures Valid()
      ensures ret == if !old(Usable(objects[o].kind, key, predefined)) then BadParam
                     else if old(key !in objects[o].attrs) then NotFound
                     else if !deleted then Callback
                     else Success
      ensures ret != Success ==> objects == old(objects) && keyvals == old(keyvals) && freed == old(freed)
      ensures ret == Success ==> objects == WithoutAttr(old(objects), o, key) && keyvals == Released(old(keyvals), key)
      ensures Kept(old(keyvals), keyvals, old(freed), freed)
      ensures deletions == old(deletions) + if ret == Success || ret == Callback then [(o, key)] else []
    {
      if !Usable(objects[o].kind, key, predefined) {
        return BadParam;
      }
      if key !in objects[o].attrs {
        return NotFound;
      }
      deletions := deletions + [(o, key)];
      if !deleted {
        return Callback;
      }
      Remove(o, key);
      ret := Success;
    }

    /** The end of ompi_attr_delete_impl: the attribute and its reference go. */
    method Remove(o: nat, key: nat)
      requires Valid() && o in objects && key in objects[o].attrs
      modifies this`keyvals, this`bitmap, this`objects, this`freed
      ensures Valid() && key in old(keyvals)
      ensures objects == WithoutAttr(old(objects), o, key) && keyvals == Released(old(keyvals), key)
      ensures Kept(old(keyvals), keyvals, old(freed), freed)
    {
      Detach(keyvals, objects, freed, o, key);
      ReleasedKept(keyvals, objects, freed, o, key);
      WithoutAttrSequenced(objects, o, key, sequence);
      objects := WithoutAttr(objects, o, key);
      Release(key);
      freed := freed * keyvals.Keys;
    }

    /** ompi_attr_delete_all: in the reverse of the order set, up to the first callback
        that fails; what was set before that one, and that one itself, stays. */
    method DeleteAll(o: nat, deleted: nat -> bool) returns (ret: Ret, ghost order: seq<nat>, ghost left: nat)
      requires Valid() && o in objects
      modifies this`keyvals, this`bitmap, this`objects, this`freed, this`deletions
      ensures Valid() && SetOrder(old(objects[o].attrs), order) && Remaining(old(objects), objects, o, order, left)
      ensures Stopped(ret, deleted, order, left) && Kept(old(keyvals), keyvals, old(freed), freed)
      ensures deletions == old(deletions) + Backwards(o, order, Reached(ret, left))
    {
      var keys := SortBySequence(objects[o].attrs, sequence);
      order := keys;
      AllRemain(objects, o, order);
      ret, left := DeleteInReverse(o, keys, deleted, objects);
    }

    /** The loop over the sorted attributes. */
    method DeleteInReverse(o: nat, order: seq<nat>, deleted: nat -> bool, ghost before: map<nat, Object>) returns (ret: Ret, ghost left: nat)
      requires Valid() && o in before && InSetOrder(before[o].attrs, order) && Remaining(before, objects, o, order, |order|)
      modifies this`keyvals, this`bitmap, this`objects, this`freed, this`deletions
      ensures Valid() && Remaining(before, objects, o, order, left) && Stopped(ret, deleted, order, left)
      ensures Kept(old(keyvals), keyvals, old(freed), freed)
      ensures deletions == old(deletions) + Backwards(o, order, Reached(ret, left))
    {
      var i := |order|;
      ret := Success;
      while i > 0
        invariant 0 <= i <= |order| && ret == Success && Valid() && Remaining(before, objects, o, order, i)
        invariant deletions == old(deletions) + Backwards(o, order, i)
        invariant AllDeleted(deleted, order, i) && Kept(old(keyvals), keyvals, old(freed), freed)
      {
        ghost var keyvals', freed' := keyvals, freed;
        ret := DeleteNext(o, order[i - 1], deleted(order[i - 1]), before, order, i);
        KeptTwice(old(keyvals), keyvals', keyvals, old(freed), freed', freed);
        if ret != Success {
          left := i;
          return;
        }
        i := i - 1;
      }
      left := 0;
    }

    /** The loop's body: the last attribute that is left. */
    method DeleteNext(o: nat, key: nat, deleted: bool, ghost before: map<nat, Object>, ghost order: seq<nat>, ghost i: nat) returns (ret: Ret)
      requires Valid() && o in before && InSetOrder(before[o].attrs, order) && 0 < i <= |order| && key == order[i - 1]
      requires Remaining(before, objects, o, order, i)
      modifies this`keyvals, this`bitmap, this`objects, this`freed, this`deletions
      ensures Valid() && ret == if deleted then Success else Callback
      ensures Remaining(before, objects, o, order, if deleted then i - 1 else i)
      ensures Kept(old(keyvals), keyvals, old(freed), freed)
      ensures forall done: seq<(nat, nat)> :: old(deletions) == done + Backwards(o, order, i) ==>
                deletions == done + Backwards(o, order, i - 1)
    {
      LastRemains(before, objects, o, order, i);
      assert Registered(keyvals, objects);
      ret := Delete(o, key, true, deleted);
      forall done: seq<(nat, nat)> | old(deletions) == done + Backwards(o, order, i)
        ensures deletions == done + Backwards(o, order, i - 1)
      {
      }
    }

    /** The body of the loop over the source's attributes. */
    method CopyOne(src: nat, dst: nat, key: nat, verdict: Verdict, deleted: bool, ghost all: map<nat, Object>) returns (ret: Ret)
      requires Valid() && src in objects && dst in objects && src != dst && objects[src].kind == objects[dst].kind
      requires key in objects[src].attrs && OnlyDiffersAt(all, objects, dst)
      modifies this`keyvals, this`objects, this`sequence, this`deletions
      ensures Valid() && OnlyDiffersAt(all, objects, dst) && old(sequence) <= sequence
      ensures ret == if Refuses(old(objects[dst].attrs), key, verdict, deleted) then Callback else Success
      ensures ret == Success ==> CopiedStep(old(objects[dst].attrs), objects[dst].attrs, key, verdict, old(sequence))
      ensures ret == Callback ==> objects == old(objects)
      ensures keyvals.Keys == old(keyvals.Keys) && Kept(old(keyvals), keyvals, freed, freed)
      ensures deletions == old(deletions) + if verdict.Copy? && key in old(objects[dst].attrs) then [(dst, key)] else []
    {
      assert Usable(objects[src].kind, key, true);
      match verdict
      case Fail => ret := Callback;
      case Skip => ret := Success;
      case Copy(value) =>
        SetDiffers(all, objects, dst, key, Attr(value, sequence));
        ret := SetValue(dst, key, value, true, deleted);
    }

    /** One turn of that loop, against the state `s` it began in. */
    method CopyNext(src: nat, dst: nat, key: nat, copy: nat -> Verdict, deleted: nat -> bool, ghost s: State, ghost rest: set<nat>) returns (ret: Ret)
      requires Valid() && Copying(src, dst, copy, s, Now(), rest, rest) && key in rest
      modifies this`keyvals, this`objects, this`sequence, this`deletions
      ensures Valid() && ret == if Refuses(s.objects[dst].attrs, key, copy(key), deleted(key)) then Callback else Success
      ensures Copying(src, dst, copy, s, Now(), if ret == Success then rest - {key} else rest, rest - {key})
    {
      ghost var now, source, before := Now(), s.objects[src].attrs, s.objects[dst].attrs;
      assert CopiedAt(before, objects[dst].attrs, key, false, copy(key), s.sequence);
      ret := CopyOne(src, dst, key, copy(key), deleted(key), s.objects);
      KeptTwice(s.keyvals, now.keyvals, keyvals, freed, freed, freed);
      ReplacedMore(dst, source, before, rest, key, copy, now.deletions, deletions, |s.deletions|);
      if ret == Success {
        CopiedMore(source, before, now.objects[dst].attrs, objects[dst].attrs, rest, key, copy, s.sequence, now.sequence);
      }
    }

    /** ompi_attr_copy_all: the copy callbacks say for each key what to do. It succeeds if
        and only if none of them fails and no delete callback of an attribute to be replaced
        refuses; else the keys `left` are as they were, and `failed` is the one to blame. */
    method CopyAll(src: nat, dst: nat, copy: nat -> Verdict, deleted: nat -> bool) returns (ret: Ret, ghost left: set<nat>, ghost failed: nat)
      requires Valid() && src in objects && dst in objects && src != dst && objects[src].kind == objects[dst].kind
      modifies this`keyvals, this`objects, this`sequence, this`deletions
      ensures Valid() && (ret == Success || ret == Callback) && CopiedAll(src, dst, copy, deleted, old(Now()), Now(), left, failed)
      ensures ret == Success <==> NoneRefuses(old(objects[src].attrs), old(objects[dst].attrs), copy, deleted, {})
      ensures ret == Success <==> left == {}
    {
      ghost var source, before := objects[src].attrs, objects[dst].attrs;
      var rest := objects[src].attrs.Keys;
      CopyStarts(src, dst, copy, Now());
      failed := 0;
      while rest != {}
        invariant Valid() && Copying(src, dst, copy, old(Now()), Now(), rest, rest)
        invariant NoneRefuses(source, before, copy, deleted, rest)
        decreases |rest|
      {
        var key :| key in rest;
        ret := CopyNext(src, dst, key, copy, deleted, old(Now()), rest);
        NoneRefusesMore(source, before, copy, deleted, rest, key);
        if ret != Success {
          left, failed := rest, key;
          return;
        }
        rest := rest - {key};
      }
      ret, left := Success, {};
      assert left - {failed} == {};
    }

    /** One call, if its arguments name known objects and a handle that has not been freed. */
    method Make(call: Call)
      requires Valid()
      modifies this
      ensures Valid() && Made(call, maxKeys, old(Now()), Now())
    {
      match call
      case NewObject(o, kind) =>
        if o !in objects {
          AddObject(o, kind);
        }
      case NewKeyval(kind, predefined) =>
        MakeKeyval(kind, predefined);
      case FreeHandle(kind, key, predefined) =>
        if key !in freed {
          MakeFree(kind, key, predefined);
        }
      case Put(o, key, value, predefined, deleted) =>
        if o in objects {
          MakePut(o, key, value, predefined, deleted);
        }
      case Take(o, key, predefined, deleted) =>
        if o in objects {
          MakeTake(o, key, predefined, deleted);
        }
      case TakeAll(o, deleted) =>
        if o in objects {
          MakeTakeAll(o, deleted);
        }
      case CopyTo(src, dst, copy, deleted) =>
        if src in objects && dst in objects && src != dst && objects[src].kind == objects[dst].kind {
          MakeCopy(src, dst, copy, deleted);
        }
    }

    method MakeKeyval(kind: Kind, predefined: bool)
      requires Valid()
      modifies this`keyvals, this`bitmap
      ensures Valid() && MadeKeyval(kind, predefined, maxKeys, old(Now()), Now())
    {
      var ret, key := CreateKeyval(kind, predefined);
    }

    method MakeFree(kind: Kind, key: nat, predefined: bool)
      requires Valid() && key !in freed
      modifies this`keyvals, this`bitmap, this`freed
      ensures Valid() && MadeFree(kind, key, predefined, old(Now()), Now())
    {
      var ret := FreeKeyval(kind, key, predefined);
    }

    method MakePut(o: nat, key: nat, value: int, predefined: bool, deleted: bool)
      requires Valid() && o in objects
      modifies this`keyvals, this`objects, this`sequence, this`deletions
      ensures Valid() && MadePut(o, key, value, predefined, deleted, old(Now()), Now())
    {
      var ret := SetValue(o, key, value, predefined, deleted);
    }

    method MakeTake(o: nat, key: nat, predefined: bool, deleted: bool)
      requires Valid() && o in objects
      modifies this`keyvals, this`bitmap, this`objects, this`freed, this`deletions
      ensures Valid() && MadeTake(o, key, predefined, deleted, old(Now()), Now())
    {
      var ret := Delete(o, key, predefined, deleted);
    }

    method MakeTakeAll(o: nat, deleted: nat -> bool)
      requires Valid() && o in objects
      modifies this`keyvals, this`bitmap, this`objects, this`freed, this`deletions
      ensures Valid() && MadeTakeAll(o, deleted, old(Now()), Now())
    {
      ghost var order, left;
      var ret;
      ret, order, left := DeleteAll(o, deleted);
      assert TookAll(o, deleted, old(Now()), Now(), ret, order, left);
    }

    method MakeCopy(src: nat, dst: nat, copy: nat -> Verdict, deleted: nat -> bool)
      requires Valid() && src in objects && dst in objects && src != dst && objects[src].kind == objects[dst].kind
      modifies this`keyvals, this`objects, this`sequence, this`deletions
      ensures Valid() && MadeCopy(src, dst, copy, deleted, old(Now()), Now())
    {
      ghost var left, failed;
      var ret;
      ret, left, failed := CopyAll(src, dst, copy, deleted);
      assert CopiedAll(src, dst, copy, deleted, old(Now()), Now(), left, failed);
    }

    /** Any sequence of calls: each of them has its effect, and the account is right after
        them: a keyval is in the table as long as, and only while, its handle is held or an
        object carries it, and the key of every attribute is there. */
    method Run(calls: seq<Call>) returns (ghost states: seq<State>)
      requires Valid()
      modifies this
      ensures Valid() && NoneLost(keyvals, objects, freed)
      ensures Ran(calls, maxKeys, states) && states[0] == old(Now()) && states[|calls|] == Now()
    {
      var i := 0;
      states := [Now()];
      while i < |calls|
        invariant 0 <= i <= |calls| && Valid() && Ran(calls[..i], maxKeys, states) && states[0] == old(Now()) && states[i] == Now()
      {
        Make(calls[i]);
        assert calls[..i + 1] == calls[..i] + [calls[i]];
        RanOnce(calls[..i], maxKeys, states, calls[i], Now());
        states := states + [Now()];
        i := i + 1;
      }
      assert calls[..i] == calls;
      KeptWhileUsed(keyvals, objects, freed);
    }
  }

  // -------------------------------------------------------------------- whole runs

  /** What the library is called for, in any order. */
  datatype Call =
    | NewObject(o: nat, kind: Kind)
    | NewKeyval(kind: Kind, predefined: bool)
    | FreeHandle(kind: Kind, key: nat, predefined: bool)
    | Put(o: nat, key: nat, value: int, predefined: bool, deleted: bool)
    | Take(o: nat, key: nat, predefined: bool, deleted: bool)
    | TakeAll(o: nat, deleteds: nat -> bool)
    | CopyTo(src: nat, dst: nat, copy: nat -> Verdict, deleteds: nat -> bool)

  predicate CanUse(s: State, kind: Kind, key: nat, predefined: bool) {
    key in s.keyvals && s.keyvals[key].kind == kind && (predefined || !s.keyvals[key].predefined)
  }

  /** The effect of a call on the state. */
  ghost predicate Made(call: Call, maxKeys: nat, s: State, s': State) {
    match call
    case NewObject(o, kind) => s' == if o in s.objects then s else s.(objects := s.objects[o := Object(kind, map[])])
    case NewKeyval(kind, predefined) => MadeKeyval(kind, predefined, maxKeys, s, s')
    case FreeHandle(kind, key, predefined) => if key in s.freed then s' == s else MadeFree(kind, key, predefined, s, s')
    case Put(o, key, value, predefined, deleted) => if o in s.objects then MadePut(o, key, value, predefined, deleted, s, s') else s' == s
    case Take(o, key, predefined, deleted) => if o in s.objects then MadeTake(o, key, predefined, deleted, s, s') else s' == s
    case TakeAll(o, deleted) => if o in s.objects then MadeTakeAll(o, deleted, s, s') else s' == s
    case CopyTo(src, dst, copy, deleted) =>
      if src in s.objects && dst in s.objects && src != dst && s.objects[src].kind == s.objects[dst].kind
      then MadeCopy(src, dst, copy, deleted, s, s') else s' == s
  }

  /** The first free key, unless all are taken. */
  ghost predicate MadeKeyval(kind: Kind, predefined: bool, maxKeys: nat, s: State, s': State) {
    || (s' == s && forall k :: 0 <= k < maxKeys ==> k in s.keyvals)
    || exists key {:trigger s.keyvals[key := Keyval(kind, predefined, 1)]} ::
         && 0 <= key < maxKeys && key !in s.keyvals && (forall k :: 0 <= k < key ==> k in s.keyvals)
         && s' == s.(keyvals := s.keyvals[key := Keyval(kind, predefined, 1)])
  }

  /** A keyval whose handle is freed stays exactly while objects carry it. */
  ghost predicate MadeFree(kind: Kind, key: nat, predefined: bool, s: State, s': State) {
    if !CanUse(s, kind, key, predefined) then s' == s
    else
      && s' == s.(keyvals := s'.keyvals, freed := s'.freed)
      && Kept(s.keyvals, s'.keyvals, s.freed + {key}, s'.freed) && (key in s'.keyvals <==> Carriers(s.objects, key) != {})
  }

  ghost predicate MadePut(o: nat, key: nat, value: int, predefined: bool, deleted: bool, s: State, s': State)
    requires o in s.objects
  {
    var usable, there := CanUse(s, s.objects[o].kind, key, predefined), key in s.objects[o].attrs;
    && s'.deletions == s.deletions + (if usable && there then [(o, key)] else [])
    && if usable && (there ==> deleted)
       then
         && s'.objects == WithAttr(s.objects, o, key, Attr(value, s.sequence)) && s'.sequence == s.sequence + 1
         && s'.keyvals.Keys == s.keyvals.Keys && Kept(s.keyvals, s'.keyvals, s.freed, s'.freed)
       else s' == s.(deletions := s'.deletions)
  }

  ghost predicate MadeTake(o: nat, key: nat, predefined: bool, deleted: bool, s: State, s': State)
    requires o in s.objects
  {
    var there := CanUse(s, s.objects[o].kind, key, predefined) && key in s.objects[o].attrs;
    && s'.deletions == s.deletions + (if there then [(o, key)] else []) && s'.sequence == s.sequence
    && if there && deleted
       then s'.objects == WithoutAttr(s.objects, o, key) && Kept(s.keyvals, s'.keyvals, s.freed, s'.freed)
       else s' == s.(deletions := s'.deletions)
  }

  ghost predicate MadeTakeAll(o: nat, deleted: nat -> bool, s: State, s': State) {
    exists ret, order, left :: TookAll(o, deleted, s, s', ret, order, left)
  }

  ghost predicate TookAll(o: nat, deleted: nat -> bool, s: State, s': State, ret: Ret, order: seq<nat>, left: nat) {
    && o in s.objects && SetOrder(s.objects[o].attrs, order) && Remaining(s.objects, s'.objects, o, order, left)
    && Stopped(ret, deleted, order, left) && s'.deletions == s.deletions + Backwards(o, order, Reached(ret, left))
    && Kept(s.keyvals, s'.keyvals, s.freed, s'.freed) && s'.sequence == s.sequence
  }

  /** Between `s` and `s'` all attributes of `src` but `rest` were copied, and all but `next` were looked at. */
  ghost predicate Copying(src: nat, dst: nat, copy: nat -> Verdict, s: State, s': State, rest: set<nat>, next: set<nat>) {
    && src in s.objects && src != dst && OnlyDiffersAt(s.objects, s'.objects, dst) && s.objects[src].kind == s.objects[dst].kind
    && rest <= s.objects[src].attrs.Keys && s.sequence <= s'.sequence
    && Copied(s.objects[src].attrs, s.objects[dst].attrs, s'.objects[dst].attrs, rest, copy, s.sequence)
    && s'.keyvals.Keys == s.keyvals.Keys && Kept(s.keyvals, s'.keyvals, s.freed, s'.freed) && s'.freed == s.freed
    && s.deletions <= s'.deletions
    && Replaced(dst, s.objects[src].attrs, s.objects[dst].attrs, next, copy, s'.deletions[|s.deletions|..])
  }

  /** Nothing stands in the way of the attributes other than `rest`. */
  ghost predicate NoneRefuses(source: map<nat, Attr>, before: map<nat, Attr>, copy: nat -> Verdict, deleted: nat -> bool, rest: set<nat>) {
    forall key :: key in source && key !in rest ==> !Refuses(before, key, copy(key), deleted(key))
  }

  lemma NoneRefusesMore(source: map<nat, Attr>, before: map<nat, Attr>, copy: nat -> Verdict, deleted: nat -> bool, rest: set<nat>, key: nat)
    requires NoneRefuses(source, before, copy, deleted, rest) && key in source
    ensures if Refuses(before, key, copy(key), deleted(key)) then !NoneRefuses(source, before, copy, deleted, {})
            else NoneRefuses(source, before, copy, deleted, rest - {key})
  {
  }

  lemma CopyStarts(src: nat, dst: nat, copy: nat -> Verdict, s: State)
    requires src in s.objects && dst in s.objects && src != dst && s.objects[src].kind == s.objects[dst].kind && s.freed <= s.keyvals.Keys
    ensures Copying(src, dst, copy, s, s, s.objects[src].attrs.Keys, s.objects[src].attrs.Keys)
  {
    assert s.deletions[|s.deletions|..] == [];
  }

  ghost predicate MadeCopy(src: nat, dst: nat, copy: nat -> Verdict, deleted: nat -> bool, s: State, s': State) {
    exists left, failed :: CopiedAll(src, dst, copy, deleted, s, s', left, failed)
  }

  ghost predicate CopiedAll(src: nat, dst: nat, copy: nat -> Verdict, deleted: nat -> bool, s: State, s': State, left: set<nat>, failed: nat) {
    && Copying(src, dst, copy, s, s', left, left - {failed})
    && (left == {} || (failed in left && Refuses(s.objects[dst].attrs, failed, copy(failed), deleted(failed))))
  }

  /** The states before and after each call. */
  ghost predicate Ran(calls: seq<Call>, maxKeys: nat, states: seq<State>) {
    |states| == |calls| + 1 && forall i :: 0 <= i < |calls| ==> Made(calls[i], maxKeys, states[i], states[i + 1])
  }

  lemma RanOnce(calls: seq<Call>, maxKeys: nat, states: seq<State>, call: Call, s: State)
    requires Ran(calls, maxKeys, states) && Made(call, maxKeys, states[|calls|], s)
    ensures Ran(calls + [call], maxKeys, states + [s])
  {
    var all, after := calls + [call], states + [s];
    forall i | 0 <= i < |all|
      ensures Made(all[i], maxKeys, after[i], after[i + 1])
    {
      if i < |calls| {
        assert Made(calls[i], maxKeys, states[i], states[i + 1]);
      }
    }
  }

  /** Keyvals in the table are used, and keyvals used are in the table. */
  ghost predicate NoneLost(keyvals: map<nat, Keyval>, objects: map<nat, Object>, freed: set<nat>) {
    && (forall key :: key in keyvals ==> key !in freed || exists o :: o in objects && key in objects[o].attrs)
    && (forall o, key :: o in objects && key in objects[o].attrs ==> key in keyvals)
  }

  lemma KeptWhileUsed(keyvals: map<nat, Keyval>, objects: map<nat, Object>, freed: set<nat>)
    requires Conserved(keyvals, objects, freed) && Registered(keyvals, objects)
    ensures NoneLost(keyvals, objects, freed)
  {
    forall key | key in keyvals && key in freed
      ensures exists o :: o in objects && key in objects[o].attrs
    {
      assert |Carriers(objects, key)| > 0;
      var o :| o in Carriers(objects, key);
    }
  }

  /** What a copy callback decides. */
  datatype Verdict = Fail | Skip | Copy(value: int)

  /** Only the attributes of `o` may have changed. */
  ghost predicate OnlyDiffersAt(before: map<nat, Object>, after: map<nat, Object>, o: nat) {
    && after.Keys == before.Keys && o in before
    && (forall p :: p in before && p != o ==> after[p] == before[p])
    && after[o].kind == before[o].kind
  }

  lemma SetDiffers(all: map<nat, Object>, objects: map<nat, Object>, o: nat, key: nat, attr: Attr)
    requires OnlyDiffersAt(all, objects, o)
    ensures var objects' := WithAttr(objects, o, key, attr);
            OnlyDiffersAt(all, objects', o) && objects'[o].attrs == objects[o].attrs[key := attr]
  {
  }

  /** The copy of an attribute fails: its callback says so, or the delete callback of the one to be replaced. */
  predicate Refuses(attrs: map<nat, Attr>, key: nat, verdict: Verdict, deleted: bool) {
    verdict.Fail? || (verdict.Copy? && key in attrs && !deleted)
  }

  /** The attribute under `key` is the copy, set since `first`, if one was due, and else what it was. */
  ghost predicate CopiedAt(before: map<nat, Attr>, after: map<nat, Attr>, key: nat, due: bool, verdict: Verdict, first: nat) {
    if due && verdict.Copy? then key in after && after[key].value == verdict.value && after[key].sequence >= first
    else (key in after <==> key in before) && (key in before && key in after ==> after[key] == before[key])
  }

  ghost predicate Copied(source: map<nat, Attr>, before: map<nat, Attr>, after: map<nat, Attr>, rest: set<nat>, copy: nat -> Verdict, first: nat) {
    forall key :: CopiedAt(before, after, key, key in source && key !in rest, copy(key), first)
  }

  ghost predicate CopiedStep(attrs: map<nat, Attr>, attrs': map<nat, Attr>, key: nat, verdict: Verdict, sequence: nat) {
    attrs' == if verdict.Copy? then attrs[key := Attr(verdict.value, sequence)] else attrs
  }

  lemma CopiedMore(source: map<nat, Attr>, before: map<nat, Attr>, attrs: map<nat, Attr>, attrs': map<nat, Attr>,
                   rest: set<nat>, key: nat, copy: nat -> Verdict, first: nat, sequence: nat)
    requires Copied(source, before, attrs, rest, copy, first) && key in rest && key in source && first <= sequence
    requires CopiedStep(attrs, attrs', key, copy(key), sequence)
    ensures Copied(source, before, attrs', rest - {key}, copy, first)
  {
    forall k
      ensures CopiedAt(before, attrs', k, k in source && k !in rest - {key}, copy(k), first)
    {
      assert CopiedAt(before, attrs, k, k in source && k !in rest, copy(k), first);
    }
  }

  /** The delete callbacks called are those of the attributes replaced. */
  ghost predicate Replaced(dst: nat, source: map<nat, Attr>, before: map<nat, Attr>, rest: set<nat>, copy: nat -> Verdict, log: seq<(nat, nat)>) {
    && (forall o, key :: (o, key) in log <==> o == dst && key in source && key !in rest && copy(key).Copy? && key in before)
    && (forall i, j :: 0 <= i < j < |log| ==> log[i] != log[j])
  }

  lemma ReplacedMore(dst: nat, source: map<nat, Attr>, before: map<nat, Attr>, rest: set<nat>, key: nat, copy: nat -> Verdict,
                     log: seq<(nat, nat)>, log': seq<(nat, nat)>, n: nat)
    requires n <= |log| && Replaced(dst, source, before, rest, copy, log[n..]) && key in rest && key in source
    requires log' == log + if copy(key).Copy? && key in before then [(dst, key)] else []
    ensures Replaced(dst, source, before, rest - {key}, copy, log'[n..])
  {
    assert log'[n..] == log[n..] + log'[|log|..];
  }

  ghost predicate SetOrder(attrs: map<nat, Attr>, order: seq<nat>) {
    InSetOrder(attrs, order) && forall key :: key in attrs <==> key in order
  }

  ghost predicate AllDeleted(deleted: nat -> bool, order: seq<nat>, from: nat) {
    forall i :: from <= i < |order| ==> deleted(order[i])
  }

  /** All attributes are gone, or the last one left is the one whose callback failed. */
  ghost predicate Stopped(ret: Ret, deleted: nat -> bool, order: seq<nat>, left: nat) {
    && left <= |order| && AllDeleted(deleted, order, left)
    && if left == 0 then ret == Success else ret == Callback && !deleted(order[left - 1])
  }

  /** The number of the last attribute whose callback was called. */
  function Reached(ret: Ret, left: nat): nat {
    if ret == Success || left == 0 then left else left - 1
  }

  /** Of the attributes that `o` had, the first `i` are left. */
  ghost predicate Remaining(before: map<nat, Object>, objects: map<nat, Object>, o: nat, order: seq<nat>, i: nat) {
    o in before && i <= |order| && objects == before[o := before[o].(attrs := FirstOf(before[o].attrs, i, order))]
  }

  lemma AllRemain(objects: map<nat, Object>, o: nat, order: seq<nat>)
    requires o in objects && forall key :: key in objects[o].attrs <==> key in order
    ensures Remaining(objects, objects, o, order, |order|)
  {
    AllOf(objects[o].attrs, order);
  }

  lemma LastRemains(before: map<nat, Object>, objects: map<nat, Object>, o: nat, order: seq<nat>, i: nat)
    requires Remaining(before, objects, o, order, i) && InSetOrder(before[o].attrs, order) && 0 < i
    ensures o in objects && order[i - 1] in objects[o].attrs
    ensures Remaining(before, WithoutAttr(objects, o, order[i - 1]), o, order, i - 1)
  {
    LastOf(before[o].attrs, order, i);
  }

  lemma AllOf(attrs: map<nat, Attr>, order: seq<nat>)
    requires forall key :: key in attrs <==> key in order
    ensures FirstOf(attrs, |order|, order) == attrs
  {
    assert order[..|order|] == order;
  }

  /** The last of the first `i` is there, and without it they are the first `i - 1`. */
  lemma LastOf(attrs: map<nat, Attr>, order: seq<nat>, i: nat)
    requires InSetOrder(attrs, order) && 0 < i <= |order|
    ensures order[i - 1] in FirstOf(attrs, i, order)
    ensures FirstOf(attrs, i, order) - {order[i - 1]} == FirstOf(attrs, i - 1, order)
  {
    assert order[i - 1] in order[..i];
    assert order[..i] == order[..i - 1] + [order[i - 1]];
    assert order[i - 1] !in order[..i - 1];
  }
}
