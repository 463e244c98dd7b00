/** Change messages, the keyed tables they describe, and the runtime's inversion rules. */
module Cdc {
  import opened Wrappers

  datatype Json = Number(n: int) | Text(s: string) | Object(fields: map<string, Json>)

  datatype Operation = Create | Update | Delete

  /** Timestamp and block hash are left out: nothing modelled here reads them. */
  datatype Header = Header(source: string, blockHeight: nat, transactionId: Option<string>)

  datatype Payload = Payload(
    operation: Operation,
    table: string,
    key: string,
    before: Option<Json>,
    after: Option<Json>)

  datatype Message = Message(header: Header, payload: Payload)

  type Key = (string, string)
  type Table = map<Key, Json>

  // ---------------------------------------------------------------- replay

  function KeyOf(p: Payload): Key {
    (p.table, p.key)
  }

  /** The effect of one message on an ideal keyed table, whether or not it fits: a create over a row replaces it,
      where a database refuses the insert. */
  function ApplyOne(t: Table, p: Payload): Table {
    match p.operation
    case Create => if p.after.Some? then t[KeyOf(p) := p.after.value] else t
    case Update => if p.after.Some? && KeyOf(p) in t then t[KeyOf(p) := p.after.value] else t
    case Delete => t - {KeyOf(p)}
  }

  function Apply(t: Table, ps: seq<Payload>): Table
    decreases |ps|
  {
    if ps == [] then t else Apply(ApplyOne(t, ps[0]), ps[1..])
  }

  /** A create hits an absent key; updates and deletes carry the current value as `before`. */
  predicate Fits(t: Table, p: Payload) {
    match p.operation
    case Create => KeyOf(p) !in t && p.before.None? && p.after.Some?
    case Update => KeyOf(p) in t && p.before == Some(t[KeyOf(p)]) && p.after.Some?
    case Delete => KeyOf(p) in t && p.before == Some(t[KeyOf(p)]) && p.after.None?
  }

  predicate Valid(t: Table, ps: seq<Payload>)
    decreases |ps|
  {
    ps == [] || (Fits(t, ps[0]) && Valid(ApplyOne(t, ps[0]), ps[1..]))
  }

  lemma {:induction false} ApplyConcat(t: Table, a: seq<Payload>, b: seq<Payload>)
    ensures Apply(t, a + b) == Apply(Apply(t, a), b)
    ensures Valid(t, a + b) <==> Valid(t, a) && Valid(Apply(t, a), b)
    decreases |a|
  {
    if a == [] {
      assert a + b == b;
    } else {
      assert (a + b)[1..] == a[1..] + b;
      ApplyConcat(ApplyOne(t, a[0]), a[1..], b);
    }
  }

  lemma ApplySingle(t: Table, p: Payload)
    ensures Apply(t, [p]) == ApplyOne(t, p)
    ensures Valid(t, [p]) <==> Fits(t, p)
  {
    var rest := [p][1..];
    assert rest == [];
    assert Apply(t, [p]) == Apply(ApplyOne(t, p), rest);
  }

  // ---------------------------------------------------------------- inversion

  function InvertPayload(p: Payload): Payload {
    match p.operation
    case Create => p.(operation := Delete, before := p.after, after := None)
    case Update => p.(before := p.after, after := p.before)
    case Delete => p.(operation := Create, before := None, after := p.before)
  }

  function InvertMessage(m: Message, newHeight: nat): Message {
    Message(Header(m.header.source, newHeight, None), InvertPayload(m.payload))
  }

  /** The payloads inverted, last one first. */
  function Inverse(ps: seq<Payload>): seq<Payload> {
    seq(|ps|, i requires 0 <= i < |ps| => InvertPayload(ps[|ps| - 1 - i]))
  }

  function InvertBlock(ms: seq<Message>, newHeight: nat): seq<Message> {
    seq(|ms|, i requires 0 <= i < |ms| => InvertMessage(ms[|ms| - 1 - i], newHeight))
  }

  /** The inverse of a block message by message, last one first: each keeps its source, carries the new height and
      no transaction, and undoes the payload. */
  lemma InvertBlockStamps(ms: seq<Message>, newHeight: nat)
    ensures |InvertBlock(ms, newHeight)| == |ms|
    ensures forall i | 0 <= i < |ms| ::
              var m, of := InvertBlock(ms, newHeight)[i], ms[|ms| - 1 - i];
              && m.header.source == of.header.source && m.header.blockHeight == newHeight
              && m.header.transactionId.None? && m.payload == InvertPayload(of.payload)
  {
    forall i | 0 <= i < |ms|
      ensures InvertBlock(ms, newHeight)[i] == InvertMessage(ms[|ms| - 1 - i], newHeight)
    {
    }
  }

  function Payloads(ms: seq<Message>): seq<Payload> {
    seq(|ms|, i requires 0 <= i < |ms| => ms[i].payload)
  }

  /** The before/after shape each operation is documented to have. */
  predicate WellFormed(p: Payload) {
    match p.operation
    case Create => p.before.None? && p.after.Some?
    case Update => p.before.Some? && p.after.Some?
    case Delete => p.before.Some? && p.after.None?
  }

  predicate AllWellFormed(ps: seq<Payload>) {
    forall i | 0 <= i < |ps| :: WellFormed(ps[i])
  }

  lemma PayloadsConcat(a: seq<Message>, b: seq<Message>)
    ensures Payloads(a + b) == Payloads(a) + Payloads(b)
  {
  }

  lemma InverseConcat(a: seq<Payload>, b: seq<Payload>)
    ensures Inverse(a + b) == Inverse(b) + Inverse(a)
  {
  }

  lemma InvertBlockPayloads(ms: seq<Message>, newHeight: nat)
    ensures Payloads(InvertBlock(ms, newHeight)) == Inverse(Payloads(ms))
  {
    var inverted, ps := InvertBlock(ms, newHeight), Payloads(ms);
    var left, right := Payloads(inverted), Inverse(ps);
    forall i | 0 <= i < |ms|
      ensures left[i] == right[i]
    {
      var j := |ms| - 1 - i;
      assert left[i] == inverted[i].payload && inverted[i] == InvertMessage(ms[j], newHeight);
      assert ps[j] == ms[j].payload && right[i] == InvertPayload(ps[j]);
    }
  }

  /** Inverting twice gives the payload back exactly when the field the rules drop was empty. */
  lemma InvertTwice(p: Payload)
    ensures InvertPayload(InvertPayload(p)) == p
            <==> (p.operation.Create? ==> p.before.None?) && (p.operation.Delete? ==> p.after.None?)
  {
  }

  lemma InverseTwice(ps: seq<Payload>)
    requires AllWellFormed(ps)
    ensures Inverse(Inverse(ps)) == ps
  {
    forall i | 0 <= i < |ps|
      ensures Inverse(Inverse(ps))[i] == ps[i]
    {
      InvertTwice(ps[i]);
    }
  }

  lemma {:induction false} ValidWellFormed(t: Table, ps: seq<Payload>)
    requires Valid(t, ps)
    ensures AllWellFormed(ps)
    decreases |ps|
  {
    if ps != [] {
      ValidWellFormed(ApplyOne(t, ps[0]), ps[1..]);
      assert ps == [ps[0]] + ps[1..];
    }
  }

  /** Undo: a valid list is undone exactly, on every table, by its reversed inversion. */
  lemma {:induction false} Undo(t: Table, ps: seq<Payload>)
    requires Valid(t, ps)
    ensures Valid(Apply(t, ps), Inverse(ps))
    ensures Apply(Apply(t, ps), Inverse(ps)) == t
    decreases |ps|
  {
    if ps != [] {
      var p, t1 := ps[0], ApplyOne(t, ps[0]);
      Undo(t1, ps[1..]);
      assert ps == [p] + ps[1..];
      InverseConcat([p], ps[1..]);
      assert Inverse([p]) == [InvertPayload(p)];
      ApplyConcat(Apply(t, ps), Inverse(ps[1..]), [InvertPayload(p)]);
      assert ApplyOne(t1, InvertPayload(p)) == t;
      ApplySingle(t1, InvertPayload(p));
    }
  }

  /** Undo is exact in both directions: the reversed inversion takes `t` to `a`
      just when the list itself takes `a` to `t`. */
  lemma UndoExactly(a: Table, t: Table, ps: seq<Payload>)
    requires AllWellFormed(ps)
    ensures Valid(t, Inverse(ps)) && Apply(t, Inverse(ps)) == a <==> Valid(a, ps) && Apply(a, ps) == t
  {
    if Valid(a, ps) && Apply(a, ps) == t {
      Undo(a, ps);
    }
    if Valid(t, Inverse(ps)) && Apply(t, Inverse(ps)) == a {
      Undo(t, Inverse(ps));
      InverseTwice(ps);
    }
  }

  /** Two tables that a list fits and takes to the same table were equal before it. */
  lemma ValidInjective(t: Table, u: Table, ps: seq<Payload>)
    requires Valid(t, ps) && Valid(u, ps) && Apply(t, ps) == Apply(u, ps)
    ensures t == u
  {
    Undo(t, ps);
    Undo(u, ps);
  }

  // ---------------------------------------------------------------- row counts

  /** Creates minus deletes. */
  function Net(ps: seq<Payload>): int {
    if ps == [] then 0
    else (match ps[0].operation case Create => 1 case Update => 0 case Delete => -1) + Net(ps[1..])
  }

  lemma {:induction false} NetConcat(a: seq<Payload>, b: seq<Payload>)
    ensures Net(a + b) == Net(a) + Net(b)
  {
    if a == [] {
      assert a + b == b;
    } else {
      assert (a + b)[1..] == a[1..] + b;
      NetConcat(a[1..], b);
    }
  }

  /** Conservation: a valid list changes the number of rows by its creates minus its deletes. */
  lemma {:induction false} RowCount(t: Table, ps: seq<Payload>)
    requires Valid(t, ps)
    ensures |Apply(t, ps)| == |t| + Net(ps)
    decreases |ps|
  {
    if ps != [] {
      var p := ps[0];
      var t1 := ApplyOne(t, p);
      match p.operation {
        case Create =>
          assert t1.Keys == t.Keys + {KeyOf(p)};
          assert |t1.Keys| == |t.Keys| + 1;
        case Update =>
          assert t1.Keys == t.Keys;
          assert |t1.Keys| == |t.Keys|;
        case Delete =>
          assert t1.Keys == t.Keys - {KeyOf(p)};
          assert |t1.Keys| == |t.Keys| - 1;
      }
      assert |t1.Keys| == |t1| && |t.Keys| == |t|;
      RowCount(t1, ps[1..]);
    }
  }

  // ---------------------------------------------------------------- one key at a time

  function Lookup(t: Table, k: Key): Option<Json> {
    if k in t then Some(t[k]) else None
  }

  lemma SameAtEveryKey(t: Table, u: Table)
    ensures t == u <==> forall k :: Lookup(t, k) == Lookup(u, k)
  {
    if forall k :: Lookup(t, k) == Lookup(u, k) {
      forall k
        ensures k in t <==> k in u
        ensures k in t ==> t[k] == u[k]
      {
        assert Lookup(t, k) == Lookup(u, k);
      }
    }
  }

  function StepAt(v: Option<Json>, p: Payload, k: Key): Option<Json> {
    if KeyOf(p) != k then v
    else match p.operation
      case Create => if p.after.Some? then p.after else v
      case Update => if p.after.Some? && v.Some? then p.after else v
      case Delete => None
  }

  /** The value at a key after a list, from the value before it. */
  function ReplayAt(v: Option<Json>, ps: seq<Payload>, k: Key): Option<Json>
    decreases |ps|
  {
    if ps == [] then v else ReplayAt(StepAt(v, ps[0], k), ps[1..], k)
  }

  lemma {:induction false} ReplayAtIs(t: Table, ps: seq<Payload>, k: Key)
    ensures Lookup(Apply(t, ps), k) == ReplayAt(Lookup(t, k), ps, k)
    decreases |ps|
  {
    if ps != [] {
      ReplayAtIs(ApplyOne(t, ps[0]), ps[1..], k);
    }
  }

  /** The value at a key after undoing a list, read off from its first message on that key: a create leaves
      no row, a delete leaves its `before`, an update leaves its `before` if undoing the rest left a row. */
  function RewoundAt(v: Option<Json>, ps: seq<Payload>, k: Key): Option<Json>
    decreases |ps|
  {
    if ps == [] then v
    else
      var p, rest := ps[0], RewoundAt(v, ps[1..], k);
      if KeyOf(p) != k then rest
      else match p.operation
        case Create => None
        case Update => if p.before.Some? && rest.Some? then p.before else rest
        case Delete => if p.before.Some? then p.before else rest
  }

  lemma {:induction false} RewoundAtIs(t: Table, ps: seq<Payload>, k: Key)
    ensures Lookup(Apply(t, Inverse(ps)), k) == RewoundAt(Lookup(t, k), ps, k)
    decreases |ps|
  {
    if ps == [] {
      assert Inverse(ps) == [];
    } else {
      var p, rest := ps[0], ps[1..];
      RewoundAtIs(t, rest, k);
      assert ps == [p] + rest && Inverse([p]) == [InvertPayload(p)];
      InverseConcat([p], rest);
      ApplyConcat(t, Inverse(rest), [InvertPayload(p)]);
      ApplySingle(Apply(t, Inverse(rest)), InvertPayload(p));
    }
  }

  /** Whatever the list holds and whether or not its inverse fits, the inverse takes `t` to `a` exactly when
      at each key the list rewinds the value in `t` to the value in `a`. */
  lemma RewindsExactly(t: Table, a: Table, ps: seq<Payload>)
    ensures Apply(t, Inverse(ps)) == a <==> forall k :: RewoundAt(Lookup(t, k), ps, k) == Lookup(a, k)
  {
    SameAtEveryKey(Apply(t, Inverse(ps)), a);
    forall k
      ensures Lookup(Apply(t, Inverse(ps)), k) == RewoundAt(Lookup(t, k), ps, k)
    {
      RewoundAtIs(t, ps, k);
    }
  }

  lemma {:induction false} RewoundConcat(v: Option<Json>, a: seq<Payload>, b: seq<Payload>, k: Key)
    ensures RewoundAt(v, a + b, k) == RewoundAt(RewoundAt(v, b, k), a, k)
    decreases |a|
  {
    if a == [] {
      assert a + b == b;
    } else {
      assert (a + b)[1..] == a[1..] + b;
      RewoundConcat(v, a[1..], b, k);
    }
  }

  predicate Touches(ps: seq<Payload>, k: Key) {
    ps != [] && (KeyOf(ps[0]) == k || Touches(ps[1..], k))
  }

  lemma {:induction false} TouchesConcat(a: seq<Payload>, b: seq<Payload>, k: Key)
    ensures Touches(a + b, k) <==> Touches(a, k) || Touches(b, k)
  {
    if a == [] {
      assert a + b == b;
    } else {
      assert (a + b)[1..] == a[1..] + b;
      TouchesConcat(a[1..], b, k);
    }
  }

  lemma {:induction false} RewoundUntouched(v: Option<Json>, ps: seq<Payload>, k: Key)
    requires !Touches(ps, k)
    ensures RewoundAt(v, ps, k) == v
    decreases |ps|
  {
    if ps != [] {
      RewoundUntouched(v, ps[1..], k);
    }
  }

  /** Some message sets or removes the row whatever was there. */
  predicate Settles(ps: seq<Payload>, k: Key) {
    && ps != []
    && ((KeyOf(ps[0]) == k && (ps[0].operation.Delete? || (ps[0].operation.Create? && ps[0].after.Some?)))
        || Settles(ps[1..], k))
  }

  /** Some message sets the row if there is one. */
  predicate Changes(ps: seq<Payload>, k: Key) {
    && ps != []
    && ((KeyOf(ps[0]) == k && ps[0].operation.Update? && ps[0].after.Some?) || Changes(ps[1..], k))
  }

  /** A list makes two values equal exactly when they were, or it settles the key, or both are rows and it
      changes the row. */
  lemma {:induction false} ReplayAgreesExactly(v: Option<Json>, w: Option<Json>, ps: seq<Payload>, k: Key)
    ensures ReplayAt(v, ps, k) == ReplayAt(w, ps, k)
            <==> v == w || Settles(ps, k) || (v.Some? && w.Some? && Changes(ps, k))
    decreases |ps|
  {
    if ps != [] {
      ReplayAgreesExactly(StepAt(v, ps[0], k), StepAt(w, ps[0], k), ps[1..], k);
    }
  }
}
