/** In-memory JSON values as the continuity gate sees them: scalars, and references into a heap of
    dictionaries and lists that may be shared and may be cyclic.

    The recursive predicate `Valid` says what a depth-limited, JSON-compatible value is. `At` follows a
    list of child positions. The lemmas below tie the two together: validity is a statement about every
    path, and it rules out cycles. */
module JsonHeap {
  import opened Wrappers

  type Id = nat
  type CodePoint = c: int | 0 <= c < 0x110000
  type Text = seq<CodePoint>

  datatype FloatValue = Finite(value: real) | Infinite(negative: bool) | NaN

  /** `Foreign` stands for every Python object that is not a JSON type (tuples, bytes, ...). */
  datatype Value =
    | Null
    | Bool(flag: bool)
    | Int(number: int)
    | Float(float: FloatValue)
    | Str(text: Text)
    | Foreign(tag: nat)
    | Ref(id: Id)

  datatype Key = TextKey(text: Text) | ForeignKey(tag: nat)

  /** A dictionary keeps its insertion order in `keys`. */
  datatype Container =
    | Dict(keys: seq<Key>, entries: map<Key, Value>)
    | List(items: seq<Value>)
  {
    ghost predicate WellFormed() {
      Dict? ==>
        && (forall k :: k in keys <==> k in entries)
        && (forall i, j :: 0 <= i < j < |keys| ==> keys[i] != keys[j])
    }

    function Degree(): nat {
      if Dict? then |keys| else |items|
    }

    function Child(q: nat): Value
      requires WellFormed() && q < Degree()
    {
      if Dict? then entries[keys[q]] else items[q]
    }
  }

  type Heap = map<Id, Container>

  /** Every container is well formed and every reference points into the heap, as in any Python heap. */
  ghost predicate Closed(h: Heap) {
    forall id :: id in h ==>
      && h[id].WellFormed()
      && forall q :: 0 <= q < h[id].Degree() ==> InHeap(h, h[id].Child(q))
  }

  predicate InHeap(h: Heap, v: Value) {
    v.Ref? ==> v.id in h
  }

  datatype Limits = Limits(depth: nat, errors: nat, nodes: nat, text: nat, key: nat, bits: nat)

  function BitLength(n: int): nat
    decreases if n < 0 then -n else n
  {
    if n == 0 then 0 else 1 + BitLength((if n < 0 then -n else n) / 2)
  }

  /** A string encodes as UTF-8 unless it holds a lone surrogate. */
  predicate Encodable(t: Text) {
    forall i :: 0 <= i < |t| ==> !(0xD800 <= t[i] <= 0xDFFF)
  }

  predicate ScalarOk(v: Value, lim: Limits)
    requires !v.Ref?
  {
    match v
    case Null => true
    case Bool(_) => true
    case Int(n) => BitLength(n) <= lim.bits
    case Float(f) => f.Finite?
    case Str(t) => |t| <= lim.text && Encodable(t)
    case Foreign(_) => false
  }

  predicate KeyOk(c: Container, q: nat, lim: Limits)
    requires q < c.Degree()
  {
    c.Dict? ==> c.keys[q].TextKey? && |c.keys[q].text| <= lim.key && Encodable(c.keys[q].text)
  }

  ghost predicate KeysOk(c: Container, lim: Limits) {
    forall q :: 0 <= q < c.Degree() ==> KeyOk(c, q, lim)
  }

  // ----- the recursive definition, on the unfolded tree

  /** `v`, met at nesting level `depth`, is JSON-compatible and has no container below level `lim.depth`. */
  ghost predicate Valid(h: Heap, v: Value, depth: nat, lim: Limits)
    requires Closed(h) && InHeap(h, v)
    decreases lim.depth + 1 - depth
  {
    if !v.Ref? then ScalarOk(v, lim)
    else
      && depth <= lim.depth
      && KeysOk(h[v.id], lim)
      && forall q :: 0 <= q < h[v.id].Degree() ==> Valid(h, h[v.id].Child(q), depth + 1, lim)
  }

  // ----- paths and reachability

  /** The value found by following child positions `p` from `v`. */
  function At(h: Heap, v: Value, p: seq<nat>): (r: Option<Value>)
    requires Closed(h) && InHeap(h, v)
    ensures r.Some? ==> InHeap(h, r.value)
    decreases |p|
  {
    if p == [] then Some(v)
    else if v.Ref? && p[0] < h[v.id].Degree() then At(h, h[v.id].Child(p[0]), p[1..])
    else None
  }

  ghost function Reach(h: Heap, root: Value): set<Id>
    requires Closed(h) && InHeap(h, root)
  {
    set id | id in h && exists p :: At(h, root, p) == Some(Ref(id))
  }

  ghost predicate NodeOk(h: Heap, w: Value, depth: nat, lim: Limits)
    requires InHeap(h, w)
  {
    if w.Ref? then depth <= lim.depth && KeysOk(h[w.id], lim) else ScalarOk(w, lim)
  }

  /** Validity is a property of every path: each leaf and key met is fine and no container lies too deep. */
  lemma {:induction false} ValidIffEveryPathValid(h: Heap, v: Value, depth: nat, lim: Limits)
    requires Closed(h) && InHeap(h, v)
    ensures Valid(h, v, depth, lim) <==>
            forall p :: At(h, v, p).Some? ==> NodeOk(h, At(h, v, p).value, depth + |p|, lim)
  {
    if Valid(h, v, depth, lim) {
      forall p | At(h, v, p).Some? ensures NodeOk(h, At(h, v, p).value, depth + |p|, lim) {
        ValidAlong(h, v, depth, lim, p);
      }
    } else {
      var p := InvalidPath(h, v, depth, lim);
    }
  }

  /** An invalid value has a path to something wrong. */
  lemma {:induction false} InvalidPath(h: Heap, v: Value, depth: nat, lim: Limits) returns (p: seq<nat>)
    requires Closed(h) && InHeap(h, v) && !Valid(h, v, depth, lim)
    ensures At(h, v, p).Some? && !NodeOk(h, At(h, v, p).value, depth + |p|, lim)
    decreases lim.depth + 1 - depth
  {
    if NodeOk(h, v, depth, lim) {
      var q :| 0 <= q < h[v.id].Degree() && !Valid(h, h[v.id].Child(q), depth + 1, lim);
      var rest := InvalidPath(h, h[v.id].Child(q), depth + 1, lim);
      p := [q] + rest;
      assert p[1..] == rest;
    } else {
      p := [];
    }
  }

  /** Whatever is found along a path of a valid value is valid at its own level. */
  lemma {:induction false} ValidAlong(h: Heap, v: Value, depth: nat, lim: Limits, p: seq<nat>)
    requires Closed(h) && InHeap(h, v) && Valid(h, v, depth, lim)
    requires At(h, v, p).Some?
    ensures Valid(h, At(h, v, p).value, depth + |p|, lim)
    decreases |p|
  {
    if p != [] {
      ValidAlong(h, h[v.id].Child(p[0]), depth + 1, lim, p[1..]);
    }
  }

  lemma {:induction false} AtConcat(h: Heap, v: Value, p: seq<nat>, q: seq<nat>)
    requires Closed(h) && InHeap(h, v)
    requires At(h, v, p).Some?
    ensures At(h, v, p + q) == At(h, At(h, v, p).value, q)
    decreases |p|
  {
    if p == [] {
      assert p + q == q;
    } else {
      assert (p + q)[1..] == p[1..] + q;
      AtConcat(h, h[v.id].Child(p[0]), p[1..], q);
    }
  }

  /** A container that can reach itself is valid at no level. */
  lemma {:induction false} CycleNeverValid(h: Heap, id: Id, depth: nat, lim: Limits, loop: seq<nat>)
    requires Closed(h) && id in h
    requires loop != [] && At(h, Ref(id), loop) == Some(Ref(id))
    ensures !Valid(h, Ref(id), depth, lim)
    decreases lim.depth + 1 - depth
  {
    if Valid(h, Ref(id), depth, lim) {
      ValidAlong(h, Ref(id), depth, lim, loop);
      CycleNeverValid(h, id, depth + |loop|, lim, loop);
    }
  }

  /** A valid value reaches no container that lies on a cycle. */
  lemma {:induction false} ValidMeansAcyclic(h: Heap, root: Value, depth: nat, lim: Limits)
    requires Closed(h) && InHeap(h, root) && Valid(h, root, depth, lim)
    ensures forall id, loop :: id in Reach(h, root) && At(h, Ref(id), loop) == Some(Ref(id)) ==> loop == []
  {
    forall id, loop | id in Reach(h, root) && At(h, Ref(id), loop) == Some(Ref(id)) ensures loop == [] {
      var p :| At(h, root, p) == Some(Ref(id));
      ValidAlong(h, root, depth, lim, p);
      if loop != [] {
        CycleNeverValid(h, id, depth + |p|, lim, loop);
      }
    }
  }

  ghost predicate ClosedUnderChildren(h: Heap, s: set<Id>)
    requires Closed(h)
  {
    forall id, q :: id in s && id in h && 0 <= q < h[id].Degree() && h[id].Child(q).Ref? ==> h[id].Child(q).id in s
  }

  /** A set that holds the root and is closed under children holds everything reachable. */
  lemma {:induction false} ReachWithin(h: Heap, v: Value, s: set<Id>, p: seq<nat>)
    requires Closed(h) && InHeap(h, v)
    requires ClosedUnderChildren(h, s) && (v.Ref? ==> v.id in s)
    ensures At(h, v, p).Some? && At(h, v, p).value.Ref? ==> At(h, v, p).value.id in s
    decreases |p|
  {
    if p != [] && v.Ref? && p[0] < h[v.id].Degree() {
      ReachWithin(h, h[v.id].Child(p[0]), s, p[1..]);
    }
  }

  lemma ReachSubset(h: Heap, root: Value, s: set<Id>)
    requires Closed(h) && InHeap(h, root)
    requires ClosedUnderChildren(h, s) && (root.Ref? ==> root.id in s)
    ensures Reach(h, root) <= s
  {
    forall id | id in Reach(h, root) ensures id in s {
      var p :| At(h, root, p) == Some(Ref(id));
      ReachWithin(h, root, s, p);
    }
  }

  // ----- the number of child slots in a set of containers

  ghost function Slots(h: Heap, s: set<Id>): nat
    requires s <= h.Keys
  {
    if s == {} then 0
    else
      var id :| id in s;
      h[id].Degree() + Slots(h, s - {id})
  }

  lemma {:induction false} SlotsRemove(h: Heap, s: set<Id>, x: Id)
    requires s <= h.Keys && x in s
    ensures Slots(h, s) == h[x].Degree() + Slots(h, s - {x})
    decreases |s|
  {
    var id :| id in s && Slots(h, s) == h[id].Degree() + Slots(h, s - {id});
    if id != x {
      SlotsRemove(h, s - {id}, x);
      SlotsRemove(h, s - {x}, id);
      assert s - {id} - {x} == s - {x} - {id};
    }
  }

  lemma {:induction false} SlotsMonotone(h: Heap, s: set<Id>, t: set<Id>)
    requires s <= t <= h.Keys
    ensures Slots(h, s) <= Slots(h, t)
    decreases |t|
  {
    if s != t {
      var x :| x in t && x !in s;
      SlotsRemove(h, t, x);
      SlotsMonotone(h, s, t - {x});
    }
  }

  // ----- leaves and keys, written out

  /** Two to the power `b`. */
  function Power(b: nat): (r: int)
    ensures r > 0
  {
    if b == 0 then 1 else 2 * Power(b - 1)
  }

  lemma {:induction false} BitLengthIff(n: int, b: nat)
    ensures BitLength(n) <= b <==> -Power(b) < n < Power(b)
    decreases b
  {
    var m := if n < 0 then -n else n;
    if b > 0 && n != 0 {
      BitLengthIff(m / 2, b - 1);
    }
  }

  /** Leaves: null and booleans; integers of so many bits; finite numbers; texts of limited length without lone
      surrogates; nothing else. */
  lemma ScalarOkIff(v: Value, lim: Limits)
    requires !v.Ref?
    ensures ScalarOk(v, lim) <==>
            match v
            case Null => true
            case Bool(_) => true
            case Int(n) => -Power(lim.bits) < n < Power(lim.bits)
            case Float(f) => f != NaN && f != Infinite(true) && f != Infinite(false)
            case Str(t) => |t| <= lim.text && !exists c :: c in t && 0xD800 <= c <= 0xDFFF
            case Foreign(_) => false
  {
    if v.Int? {
      BitLengthIff(v.number, lim.bits);
    }
    if v.Str? {
      EncodableIff(v.text);
    }
    hide BitLength, Power, Encodable;
  }

  lemma EncodableIff(t: Text)
    ensures Encodable(t) <==> !exists c :: c in t && 0xD800 <= c <= 0xDFFF
  {
    if i :| 0 <= i < |t| && 0xD800 <= t[i] <= 0xDFFF {
      assert t[i] in t;
    }
  }

  /** Keys of dictionaries: texts of limited length without lone surrogates. */
  lemma KeysOkIff(c: Container, lim: Limits)
    requires c.WellFormed()
    ensures KeysOk(c, lim) <==>
            (c.Dict? ==> forall k :: k in c.entries ==>
               k.TextKey? && |k.text| <= lim.key && !exists x :: x in k.text && 0xD800 <= x <= 0xDFFF)
  {
    forall k: Key | k.TextKey? ensures Encodable(k.text) <==> !exists x :: x in k.text && 0xD800 <= x <= 0xDFFF {
      EncodableIff(k.text);
    }
    hide Encodable;
    if c.Dict? {
      assert forall q :: 0 <= q < |c.keys| ==> c.keys[q] in c.entries;
      if KeysOk(c, lim) {
        forall k | k in c.entries
          ensures k.TextKey? && |k.text| <= lim.key && !exists x :: x in k.text && 0xD800 <= x <= 0xDFFF
        {
          var q :| 0 <= q < |c.keys| && c.keys[q] == k;
          assert KeyOk(c, q, lim);
        }
      }
    }
  }
}
