/** The minimal transform: its own rollback, and how it compares with the runtime's inversion. */
module MinimalTransforms {
  import opened Wrappers
  import opened Cdc
  import opened Encodings
  import opened Runtimes

  datatype TransformError = ViewFailed | UnexpectedLength(got: nat, expected: nat)

  // ---------------------------------------------------------------- keys and rows

  function BlockRow(height: nat, hashByte: byte, trackerLength: nat): Json {
    Object(map["height" := Number(height), "hash_byte" := Number(hashByte), "tracker_length" := Number(trackerLength)])
  }

  function BlockKey(height: nat): Key {
    ("blocks", Decimal(height))
  }

  lemma BlockKeysDiffer(g: nat, h: nat)
    requires g != h
    ensures BlockKey(g) != BlockKey(h)
  {
    if Decimal(g) == Decimal(h) {
      DecimalInjective(g, h);
    }
  }

  function CreateMessage(height: nat, hashByte: byte, trackerLength: nat): Message {
    Message(Header("debshrew-minimal", height, None),
            Payload(Create, "blocks", Decimal(height), None, Some(BlockRow(height, hashByte, trackerLength))))
  }

  function DeleteMessage(height: nat, hashByte: byte, target: nat): Message {
    Message(Header("debshrew-minimal", target, None),
            Payload(Delete, "blocks", Decimal(height), Some(BlockRow(height, hashByte, height + 1)), None))
  }

  // ---------------------------------------------------------------- the transform on values

  datatype Minimal = Minimal(tracker: map<nat, byte>, last: Option<nat>)

  /** A block is taken only if the view returned one byte for each height up to it. */
  function Process(m: Minimal, height: nat, view: Option<seq<byte>>): (Minimal, Result<seq<Message>, TransformError>) {
    if view.None? then (m, Failure(ViewFailed))
    else if |view.value| != height + 1 then (m, Failure(UnexpectedLength(|view.value|, height + 1)))
    else
      var hashByte := view.value[height];
      (Minimal(m.tracker[height := hashByte], Some(height)),
       Success([CreateMessage(height, hashByte, |view.value|)]))
  }

  /** The deletes a rollback to `target` emits for the tracked heights `target + 1..=last`, lowest first. */
  function Deletes(tracker: map<nat, byte>, target: nat, last: nat): seq<Message>
    decreases last
  {
    if last <= target then []
    else Deletes(tracker, target, last - 1)
         + (if last in tracker then [DeleteMessage(last, tracker[last], target)] else [])
  }

  function Kept(tracker: map<nat, byte>, target: nat, last: nat): map<nat, byte> {
    map h | h in tracker && !(target < h <= last) :: tracker[h]
  }

  function Undone(m: Minimal, target: nat): (Minimal, seq<Message>) {
    match m.last
    case None => (m.(last := Some(target)), [])
    case Some(last) => (Minimal(Kept(m.tracker, target, last), Some(target)), Deletes(m.tracker, target, last))
  }

  // ---------------------------------------------------------------- whole runs

  datatype Call = ProcessBlock(height: nat, view: Option<seq<byte>>) | Rollback(target: nat)

  /** The transform, the runtime's log of its blocks, the table its messages describe, and whether every
      message fitted that table. */
  datatype World = World(transform: Minimal, log: map<nat, seq<Message>>, table: Table, fits: bool)

  function Sent(w: World, ms: seq<Message>): World {
    w.(table := Apply(w.table, Payloads(ms)), fits := w.fits && Valid(w.table, Payloads(ms)))
  }

  function After(base: Table, calls: seq<Call>): World {
    if calls == [] then World(Minimal(map[], None), map[], base, true)
    else
      var w := After(base, calls[..|calls| - 1]);
      match calls[|calls| - 1]
      case ProcessBlock(height, view) =>
        (match Process(w.transform, height, view)
         case (_, Failure(_)) => w
         case (m, Success(ms)) => Sent(w.(transform := m, log := w.log[height := ms]), ms))
      case Rollback(target) =>
        var (m, ms) := Undone(w.transform, target);
        Sent(w.(transform := m), ms)
  }

  /** Each block is processed above the last height the transform stands at. */
  ghost predicate Ascends(base: Table, calls: seq<Call>) {
    calls != [] ==>
      && Ascends(base, calls[..|calls| - 1])
      && var last, call := After(base, calls[..|calls| - 1]).transform.last, calls[|calls| - 1];
         call.ProcessBlock? && last.Some? ==> last.value < call.height
  }

  /** The "blocks" rows are exactly the tracked heights, each with its byte and its length. */
  ghost predicate IsImage(t: Table, tracker: map<nat, byte>) {
    && (forall h: nat :: BlockKey(h) in t <==> h in tracker)
    && (forall h: nat | h in tracker :: t[BlockKey(h)] == BlockRow(h, tracker[h], h + 1))
    && NoOtherBlocks(t)
  }

  ghost predicate NoOtherBlocks(t: Table) {
    forall k | k in t && k.0 == "blocks" :: exists h: nat :: k == BlockKey(h)
  }

  /** One create, of this height's row. */
  ghost predicate CreatesOnly(ms: seq<Message>, h: nat) {
    |ms| == 1 && ms[0].payload.operation.Create? && KeyOf(ms[0].payload) == BlockKey(h)
  }

  /** Each logged height created its row, and each tracked one is logged with the row the table has. */
  ghost predicate Logs(w: World) {
    && (forall h | h in w.log :: CreatesOnly(w.log[h], h))
    && (forall h | h in w.transform.tracker ::
          h in w.log && w.log[h] == [CreateMessage(h, w.transform.tracker[h], h + 1)])
    && (forall h | h in w.transform.tracker :: w.transform.last.Some? && h <= w.transform.last.value)
  }

  // ---------------------------------------------------------------- deletes

  function DeleteKeys(ps: seq<Payload>): set<Key> {
    set p | p in ps :: KeyOf(p)
  }

  ghost predicate DistinctDeletes(t: Table, ps: seq<Payload>) {
    && (forall i | 0 <= i < |ps| :: ps[i].operation.Delete? && Fits(t, ps[i]))
    && (forall i, j | 0 <= i < j < |ps| :: KeyOf(ps[i]) != KeyOf(ps[j]))
  }

  /** Deletes of distinct rows fit in any order and remove just those rows. */
  lemma {:induction false} DeletesApply(t: Table, ps: seq<Payload>)
    requires DistinctDeletes(t, ps)
    ensures Valid(t, ps) && Apply(t, ps) == t - DeleteKeys(ps)
    decreases |ps|
  {
    if ps != [] {
      var p, rest := ps[0], ps[1..];
      var t1 := ApplyOne(t, p);
      assert DistinctDeletes(t1, rest) by {
        forall i | 0 <= i < |rest|
          ensures rest[i].operation.Delete? && Fits(t1, rest[i])
        {
          assert rest[i] == ps[i + 1] && KeyOf(ps[0]) != KeyOf(ps[i + 1]);
        }
      }
      DeletesApply(t1, rest);
      assert ps == [p] + rest;
      assert DeleteKeys(ps) == {KeyOf(p)} + DeleteKeys(rest);
    }
  }

  lemma BlockKeyIsUnique(height: nat)
    ensures forall h: nat :: BlockKey(h) == BlockKey(height) <==> h == height
  {
    forall h: nat
      ensures BlockKey(h) == BlockKey(height) <==> h == height
    {
      if h != height {
        BlockKeysDiffer(h, height);
      }
    }
  }

  /** The rollback deletes each tracked height above the target once, with the row it has. */
  lemma {:induction false} DeletesAre(t: Table, tracker: map<nat, byte>, target: nat, last: nat)
    requires IsImage(t, tracker)
    ensures var ps := Payloads(Deletes(tracker, target, last));
            && DistinctDeletes(t, ps)
            && forall h: nat :: BlockKey(h) in DeleteKeys(ps) <==> target < h <= last && h in tracker
  {
    DeletesDistinct(t, tracker, target, last);
    DeletesKeys(tracker, target, last);
    RangeKeysAre(tracker.Keys, target, last);
  }

  lemma {:induction false} DeletesDistinct(t: Table, tracker: map<nat, byte>, target: nat, last: nat)
    requires IsImage(t, tracker)
    ensures DistinctDeletes(t, Payloads(Deletes(tracker, target, last)))
    decreases last
  {
    if target < last {
      DeletesDistinct(t, tracker, target, last - 1);
      var before := Deletes(tracker, target, last - 1);
      if last in tracker {
        DeletesKeys(tracker, target, last - 1);
        RangeKeysAre(tracker.Keys, target, last - 1);
        DeleteOneMore(t, before, DeleteMessage(last, tracker[last], target));
      } else {
        assert before + [] == before;
      }
    }
  }

  lemma DeleteOneMore(t: Table, before: seq<Message>, m: Message)
    requires DistinctDeletes(t, Payloads(before)) && m.payload.operation.Delete? && Fits(t, m.payload)
    requires KeyOf(m.payload) !in DeleteKeys(Payloads(before))
    ensures DistinctDeletes(t, Payloads(before + [m]))
    ensures DeleteKeys(Payloads(before + [m])) == DeleteKeys(Payloads(before)) + {KeyOf(m.payload)}
  {
    var ps := Payloads(before);
    PayloadsConcat(before, [m]);
    assert Payloads(before + [m]) == ps + [m.payload];
    forall i | 0 <= i < |ps|
      ensures KeyOf(ps[i]) != KeyOf(m.payload)
    {
      assert ps[i] in ps;
    }
  }

  /** The transform's own rollback fits the image of its tracker and leaves the image of what it keeps. */
  lemma RollbackImage(t: Table, tracker: map<nat, byte>, target: nat, last: nat)
    requires IsImage(t, tracker)
    ensures var ps := Payloads(Deletes(tracker, target, last));
            && DistinctDeletes(t, ps) && Valid(t, ps) && Apply(t, ps) == t - DeleteKeys(ps)
            && IsImage(Apply(t, ps), Kept(tracker, target, last))
  {
    var ps := Payloads(Deletes(tracker, target, last));
    DeletesAre(t, tracker, target, last);
    DeletesApply(t, ps);
    var kept, t1 := Kept(tracker, target, last), t - DeleteKeys(ps);
    forall h: nat
      ensures BlockKey(h) in t1 <==> h in kept
    {
    }
    assert NoOtherBlocks(t1);
  }

  lemma ProcessImage(t: Table, tracker: map<nat, byte>, height: nat, hashByte: byte)
    requires IsImage(t, tracker) && height !in tracker
    ensures var ps := Payloads([CreateMessage(height, hashByte, height + 1)]);
            Valid(t, ps) && IsImage(Apply(t, ps), tracker[height := hashByte])
  {
    var p := CreateMessage(height, hashByte, height + 1).payload;
    assert Payloads([CreateMessage(height, hashByte, height + 1)]) == [p];
    ApplySingle(t, p);
    ImagePlus(t, tracker, height, hashByte);
  }

  lemma ImagePlus(t: Table, tracker: map<nat, byte>, height: nat, hashByte: byte)
    requires IsImage(t, tracker)
    ensures IsImage(t[BlockKey(height) := BlockRow(height, hashByte, height + 1)], tracker[height := hashByte])
  {
    var t1 := t[BlockKey(height) := BlockRow(height, hashByte, height + 1)];
    forall h: nat | h != height
      ensures BlockKey(h) != BlockKey(height)
    {
      BlockKeysDiffer(h, height);
    }
    assert NoOtherBlocks(t1);
  }

  /** All messages fitted, and the "blocks" table is the image of the tracker. */
  ghost predicate Good(w: World) {
    w.fits && IsImage(w.table, w.transform.tracker) && Logs(w)
  }

  /** In every run that processes upwards, with rollbacks anywhere, all messages fit and the "blocks" table
      is exactly the image of the tracker. */
  lemma {:induction false} TrackerIsTable(base: Table, calls: seq<Call>)
    requires Ascends(base, calls) && forall k | k in base :: k.0 != "blocks"
    ensures var w := After(base, calls);
            Good(w)
    decreases |calls|
  {
    if calls != [] {
      TrackerIsTable(base, calls[..|calls| - 1]);
      var w := After(base, calls[..|calls| - 1]);
      match calls[|calls| - 1] {
        case ProcessBlock(height, view) =>
          if view.Some? && |view.value| == height + 1 {
            ProcessKeeps(w, height, view.value);
          }
        case Rollback(target) => RollbackKeeps(w, target);
      }
    } else {
      assert forall h: nat :: BlockKey(h).0 == "blocks";
    }
  }

  lemma ProcessKeeps(w: World, height: nat, view: seq<byte>)
    requires Good(w) && |view| == height + 1
    requires w.transform.last.Some? ==> w.transform.last.value < height
    ensures var (m, r) := Process(w.transform, height, Some(view));
            r.Success? && Good(Sent(w.(transform := m, log := w.log[height := r.value]), r.value))
  {
    ProcessedIsGood(w, height, view[height]);
  }

  lemma ProcessedIsGood(w: World, height: nat, hashByte: byte)
    requires Good(w) && (w.transform.last.Some? ==> w.transform.last.value < height)
    ensures var ms := [CreateMessage(height, hashByte, height + 1)];
            Good(Sent(World(Minimal(w.transform.tracker[height := hashByte], Some(height)), w.log[height := ms],
                            w.table, w.fits), ms))
  {
    ProcessImage(w.table, w.transform.tracker, height, hashByte);
    ProcessLogs(w, height, hashByte);
  }

  lemma ProcessLogs(w: World, height: nat, hashByte: byte)
    requires Logs(w)
    requires w.transform.last.Some? ==> w.transform.last.value < height
    ensures Logs(World(Minimal(w.transform.tracker[height := hashByte], Some(height)),
                       w.log[height := [CreateMessage(height, hashByte, height + 1)]], w.table, w.fits))
  {
    assert CreatesOnly([CreateMessage(height, hashByte, height + 1)], height);
  }

  lemma RollbackKeeps(w: World, target: nat)
    requires Good(w)
    ensures var (m, ms) := Undone(w.transform, target);
            Good(Sent(w.(transform := m), ms))
  {
    if w.transform.last.Some? {
      RollbackImage(w.table, w.transform.tracker, target, w.transform.last.value);
    } else {
      assert Payloads([]) == [];
    }
  }

  // ---------------------------------------------------------------- the two undo routes

  /** What the runtime's inversion deletes beyond the transform's rollback: logged heights not tracked. */
  lemma {:induction false} CountRoutes(w: World, target: nat, last: nat)
    requires Logs(w)
    ensures |Payloads(Deletes(w.transform.tracker, target, last))| <= |Logged(w.log, target, last)|
    ensures |Payloads(Deletes(w.transform.tracker, target, last))| == |Logged(w.log, target, last)|
            <==> forall h | target < h <= last && h in w.log :: h in w.transform.tracker
    decreases last
  {
    if target < last {
      CountRoutes(w, target, last - 1);
      CountOneMore(w, target, last);
    }
  }

  lemma CountOneMore(w: World, target: nat, last: nat)
    requires Logs(w) && target < last
    ensures |Payloads(Deletes(w.transform.tracker, target, last))|
            == |Payloads(Deletes(w.transform.tracker, target, last - 1))|
               + (if last in w.transform.tracker then 1 else 0)
    ensures |Logged(w.log, target, last)| == |Logged(w.log, target, last - 1)| + (if last in w.log then 1 else 0)
    ensures last in w.transform.tracker ==> last in w.log
  {
    assert last in w.log ==> CreatesOnly(w.log[last], last);
  }

  /** Where nothing stale is logged, the runtime's inverse stream is the transform's rollback backwards. */
  lemma {:induction false} RoutesMirror(w: World, target: nat, last: nat)
    requires Logs(w) && forall h | target < h <= last && h in w.log :: h in w.transform.tracker
    ensures var mine := Payloads(Deletes(w.transform.tracker, target, last));
            var theirs := Inverse(Logged(w.log, target, last));
            Mirror(mine, theirs)
    decreases last
  {
    if target < last {
      RoutesMirror(w, target, last - 1);
      RoutesMirrorStep(w, target, last);
    }
  }

  ghost predicate Mirror(mine: seq<Payload>, theirs: seq<Payload>) {
    |mine| == |theirs| && forall i | 0 <= i < |mine| :: theirs[i] == mine[|mine| - 1 - i]
  }

  lemma RoutesMirrorStep(w: World, target: nat, last: nat)
    requires Logs(w) && target < last && (last in w.log ==> last in w.transform.tracker)
    requires Mirror(Payloads(Deletes(w.transform.tracker, target, last - 1)), Inverse(Logged(w.log, target, last - 1)))
    ensures Mirror(Payloads(Deletes(w.transform.tracker, target, last)), Inverse(Logged(w.log, target, last)))
  {
    var below := Logged(w.log, target, last - 1);
    var mine := Deletes(w.transform.tracker, target, last - 1);
    if last in w.log {
      var message := CreateMessage(last, w.transform.tracker[last], last + 1);
      var delete := DeleteMessage(last, w.transform.tracker[last], target);
      assert Payloads([message]) == [message.payload] && Payloads([delete]) == [delete.payload];
      assert InvertPayload(message.payload) == delete.payload;
      assert Inverse([message.payload]) == [delete.payload];
      InverseConcat(below, [message.payload]);
      PayloadsConcat(mine, [delete]);
      MirrorMore(Payloads(mine), Inverse(below), delete.payload);
    } else {
      assert below + [] == below && mine + [] == mine;
    }
  }

  lemma MirrorMore(mine: seq<Payload>, theirs: seq<Payload>, p: Payload)
    requires Mirror(mine, theirs)
    ensures Mirror(mine + [p], [p] + theirs)
  {
  }

  lemma {:induction false} DeletesRemove(t: Table, ps: seq<Payload>)
    requires forall p | p in ps :: p.operation.Delete?
    ensures Apply(t, ps) == t - DeleteKeys(ps)
    decreases |ps|
  {
    if ps != [] {
      var p, rest := ps[0], ps[1..];
      assert ps == [p] + rest;
      assert DeleteKeys(ps) == {KeyOf(p)} + DeleteKeys(rest);
      DeletesRemove(ApplyOne(t, p), rest);
      assert t - {KeyOf(p)} - DeleteKeys(rest) == t - DeleteKeys(ps);
    }
  }

  /** The row keys of those of the heights `target + 1..=last` that are in a set. */
  function RangeKeys(heights: set<nat>, target: nat, last: nat): set<Key>
    decreases last
  {
    if last <= target then {}
    else RangeKeys(heights, target, last - 1) + if last in heights then {BlockKey(last)} else {}
  }

  lemma {:induction false} RangeKeysAre(heights: set<nat>, target: nat, last: nat)
    ensures forall h: nat :: BlockKey(h) in RangeKeys(heights, target, last) <==> target < h <= last && h in heights
    decreases last
  {
    if target < last {
      RangeKeysAre(heights, target, last - 1);
      BlockKeyIsUnique(last);
    }
  }

  /** The runtime's inverse stream deletes the rows of just the logged heights. */
  lemma {:induction false} InversesAre(w: World, target: nat, last: nat)
    requires Logs(w)
    ensures forall p | p in Inverse(Logged(w.log, target, last)) :: p.operation.Delete?
    ensures DeleteKeys(Inverse(Logged(w.log, target, last))) == RangeKeys(w.log.Keys, target, last)
    decreases last
  {
    if last <= target {
      assert Inverse(Logged(w.log, target, last)) == [];
    } else if last in w.log {
      var below := Logged(w.log, target, last - 1);
      InversesAre(w, target, last - 1);
      assert CreatesOnly(w.log[last], last);
      var create := w.log[last][0].payload;
      assert Payloads(w.log[last]) == [create] && Inverse([create]) == [InvertPayload(create)];
      InverseConcat(below, [create]);
      KeysOneMore(InvertPayload(create), Inverse(below));
    } else {
      InversesAre(w, target, last - 1);
      assert Logged(w.log, target, last - 1) + [] == Logged(w.log, target, last - 1);
    }
  }

  /** The transform's rollback deletes the rows of just the tracked heights. */
  lemma {:induction false} DeletesKeys(tracker: map<nat, byte>, target: nat, last: nat)
    ensures DeleteKeys(Payloads(Deletes(tracker, target, last))) == RangeKeys(tracker.Keys, target, last)
    decreases last
  {
    if last <= target {
      assert Payloads(Deletes(tracker, target, last)) == [];
    } else {
      DeletesKeys(tracker, target, last - 1);
      var before := Deletes(tracker, target, last - 1);
      if last in tracker {
        var m := DeleteMessage(last, tracker[last], target);
        PayloadsConcat(before, [m]);
        assert Payloads([m]) == [m.payload];
        KeysOneLast(Payloads(before), m.payload);
      } else {
        assert before + [] == before;
      }
    }
  }

  lemma KeysOneLast(ps: seq<Payload>, p: Payload)
    ensures DeleteKeys(ps + [p]) == DeleteKeys(ps) + {KeyOf(p)}
  {
    assert forall q | q in ps :: q in ps + [p];
    assert p in ps + [p];
  }

  lemma KeysOneMore(p: Payload, ps: seq<Payload>)
    ensures DeleteKeys([p] + ps) == {KeyOf(p)} + DeleteKeys(ps)
    ensures forall q | q in [p] + ps :: q == p || q in ps
  {
    assert forall q | q in ps :: q in [p] + ps;
    assert p in [p] + ps;
  }

  /** The two undo routes agree: in every run with rollbacks anywhere, the runtime's descending inverses of
      all it logged above the target, stale heights included, leave the same table as the transform's own
      ascending deletes. */
  lemma RoutesReachSameTable(base: Table, calls: seq<Call>, target: nat)
    requires Ascends(base, calls) && forall k | k in base :: k.0 != "blocks"
    requires After(base, calls).transform.last.Some?
    ensures var w := After(base, calls);
            var last := w.transform.last.value;
            Apply(w.table, Inverse(Logged(w.log, target, last)))
            == Apply(w.table, Payloads(Deletes(w.transform.tracker, target, last)))
    ensures var w := After(base, calls);
            var last := w.transform.last.value;
            UndoStream(w.log, last, target).Success? ==>
              Apply(w.table, Payloads(UndoStream(w.log, last, target).value))
              == Apply(w.table, Payloads(Undone(w.transform, target).1))
  {
    TrackerIsTable(base, calls);
    var w := After(base, calls);
    var last := w.transform.last.value;
    InversesAre(w, target, last);
    DeletesRemove(w.table, Inverse(Logged(w.log, target, last)));
    RollbackImage(w.table, w.transform.tracker, target, last);
    DeletesKeys(w.transform.tracker, target, last);
    SameRowsRemoved(w.table, w.log.Keys, w.transform.tracker.Keys, target, last);
    if UndoStream(w.log, last, target).Success? {
      UndoStreamInverts(w.log, last, target);
    }
  }

  /** Heights whose row is not there make no difference. */
  lemma {:induction false} SameRowsRemoved(t: Table, a: set<nat>, b: set<nat>, target: nat, last: nat)
    requires forall h | (h in a) != (h in b) :: BlockKey(h) !in t
    ensures t - RangeKeys(a, target, last) == t - RangeKeys(b, target, last)
    decreases last
  {
    if target < last {
      SameRowsRemoved(t, a, b, target, last - 1);
      var x, y := RangeKeys(a, target, last - 1), RangeKeys(b, target, last - 1);
      var p := if last in a then {BlockKey(last)} else {};
      var q := if last in b then {BlockKey(last)} else {};
      assert t - (x + p) == (t - x) - p && t - (y + q) == (t - y) - q;
    }
  }

  /** The runtime's inverses also fit, message by message, exactly when every height logged above the target
      is still tracked. */
  lemma RoutesFitExactly(base: Table, calls: seq<Call>, target: nat)
    requires Ascends(base, calls) && forall k | k in base :: k.0 != "blocks"
    requires After(base, calls).transform.last.Some?
    ensures var w := After(base, calls);
            var last := w.transform.last.value;
            Valid(w.table, Inverse(Logged(w.log, target, last)))
            <==> forall h | target < h <= last && h in w.log :: h in w.transform.tracker
  {
    TrackerIsTable(base, calls);
    RoutesReachSameTable(base, calls, target);
    var w := After(base, calls);
    var last := w.transform.last.value;
    TrackedRoutesFit(w, target, last);
    FittingRoutesTracked(w, target, last);
  }

  lemma TrackedRoutesFit(w: World, target: nat, last: nat)
    requires Logs(w) && IsImage(w.table, w.transform.tracker)
    ensures (forall h | target < h <= last && h in w.log :: h in w.transform.tracker)
            ==> Valid(w.table, Inverse(Logged(w.log, target, last)))
  {
    var mine, theirs := Payloads(Deletes(w.transform.tracker, target, last)), Inverse(Logged(w.log, target, last));
    if forall h | target < h <= last && h in w.log :: h in w.transform.tracker {
      RollbackImage(w.table, w.transform.tracker, target, last);
      RoutesMirror(w, target, last);
      MirroredDeletes(w.table, mine, theirs);
    }
  }

  /** Both routes reach one table, so if both fit they delete equally many rows. */
  lemma FittingRoutesTracked(w: World, target: nat, last: nat)
    requires Logs(w) && IsImage(w.table, w.transform.tracker)
    requires Apply(w.table, Inverse(Logged(w.log, target, last)))
             == Apply(w.table, Payloads(Deletes(w.transform.tracker, target, last)))
    ensures Valid(w.table, Inverse(Logged(w.log, target, last)))
            ==> forall h | target < h <= last && h in w.log :: h in w.transform.tracker
  {
    var mine, theirs := Payloads(Deletes(w.transform.tracker, target, last)), Inverse(Logged(w.log, target, last));
    if Valid(w.table, theirs) {
      RollbackImage(w.table, w.transform.tracker, target, last);
      InversesAre(w, target, last);
      RowCount(w.table, theirs);
      RowCount(w.table, mine);
      DeletesNet(mine);
      DeletesNet(theirs);
      CountRoutes(w, target, last);
    }
  }

  /** A run that leaves a logged height untracked: 1 and 2 are processed, both rolled back, and 2 is processed
      again. Undoing down to 0 deletes the row of height 1, which is not there. */
  const STALE_RUN: seq<Call> :=
    [ProcessBlock(1, Some([7, 8])), ProcessBlock(2, Some([7, 8, 9])), Rollback(0), ProcessBlock(2, Some([7, 8, 9]))]

  lemma StaleRunStates()
    ensures Ascends(map[], STALE_RUN[..3])
    ensures After(map[], STALE_RUN[..3]).transform == Minimal(map[], Some(0))
    ensures 1 in After(map[], STALE_RUN[..3]).log
  {
    var one, two, three := STALE_RUN[..1], STALE_RUN[..2], STALE_RUN[..3];
    assert one[..0] == [] && two[..1] == one && three[..2] == two;
    assert After(map[], one).transform == Minimal(map[1 := 8], Some(1));
    assert After(map[], two).transform == Minimal(map[1 := 8, 2 := 9], Some(2));
    assert 1 in After(map[], two).log;
    assert Ascends(map[], one) && Ascends(map[], two);
  }

  lemma StaleHeightDoesNotFit()
    ensures Ascends(map[], STALE_RUN)
    ensures var w := After(map[], STALE_RUN);
            && w.transform.last == Some(2) && 1 in w.log && 1 !in w.transform.tracker
            && !Valid(w.table, Inverse(Logged(w.log, 0, 2)))
  {
    StaleRunStates();
    assert STALE_RUN[..|STALE_RUN| - 1] == STALE_RUN[..3];
    RoutesFitExactly(map[], STALE_RUN, 0);
  }

  lemma {:induction false} DeletesNet(ps: seq<Payload>)
    requires forall i | 0 <= i < |ps| :: ps[i].operation.Delete?
    ensures Net(ps) == -|ps|
  {
    if ps != [] {
      DeletesNet(ps[1..]);
    }
  }

  lemma MirroredDeletes(t: Table, mine: seq<Payload>, theirs: seq<Payload>)
    requires DistinctDeletes(t, mine)
    requires Mirror(mine, theirs)
    ensures Valid(t, theirs) && Apply(t, theirs) == Apply(t, mine)
  {
    assert DistinctDeletes(t, theirs);
    DeletesApply(t, theirs);
    DeletesApply(t, mine);
    forall p
      ensures p in mine <==> p in theirs
    {
      if p in mine {
        var i :| 0 <= i < |mine| && mine[i] == p;
        assert theirs[|mine| - 1 - i] == p;
      }
    }
    assert DeleteKeys(mine) == DeleteKeys(theirs);
  }

  // ---------------------------------------------------------------- what the views said

  /** A call for this height was given a view of the right length with this byte at the height, and no rollback
      since went below the height. */
  ghost predicate Viewed(calls: seq<Call>, height: nat, hashByte: byte) {
    exists i :: Stands(calls, i, height, hashByte)
  }

  predicate Tracks(tracker: map<nat, byte>, height: nat, hashByte: byte) {
    height in tracker && tracker[height] == hashByte
  }

  ghost predicate Stands(calls: seq<Call>, i: int, height: nat, hashByte: byte) {
    && 0 <= i < |calls| && calls[i].ProcessBlock? && calls[i].height == height
    && calls[i].view.Some? && |calls[i].view.value| == height + 1 && calls[i].view.value[height] == hashByte
    && forall j | i < j < |calls| && calls[j].Rollback? :: height <= calls[j].target
  }

  /** In every ascending run the transform tracks a height, with a byte, exactly when that byte is what the view
      of a call still standing gave for the height. */
  lemma {:induction false} TrackerIsViews(base: Table, calls: seq<Call>)
    requires Ascends(base, calls) && forall k | k in base :: k.0 != "blocks"
    ensures var tracker := After(base, calls).transform.tracker;
            forall h: nat, b: byte :: Tracks(tracker, h, b) <==> Viewed(calls, h, b)
    decreases |calls|
  {
    if calls != [] {
      var n := |calls| - 1;
      var w := After(base, calls[..n]);
      TrackerIsViews(base, calls[..n]);
      TrackerIsTable(base, calls[..n]);
      assert TracksUpToLast(w.transform);
      forall h: nat, b: byte
        ensures Tracks(After(base, calls).transform.tracker, h, b) <==> Viewed(calls, h, b)
      {
        assert Tracks(w.transform.tracker, h, b) <==> Viewed(calls[..n], h, b);
        match calls[n] {
          case ProcessBlock(height, view) =>
            ProcessTracks(w.transform, height, view, h, b);
            OneMoreView(calls, h, b);
          case Rollback(target) =>
            RollbackTracks(w.transform, target, h, b);
            OneMoreRollback(calls, h, b);
        }
      }
    }
  }

  ghost predicate TracksUpToLast(m: Minimal) {
    forall h | h in m.tracker :: m.last.Some? && h <= m.last.value
  }

  lemma ProcessTracks(m: Minimal, height: nat, view: Option<seq<byte>>, h: nat, b: byte)
    requires TracksUpToLast(m) && (m.last.Some? ==> m.last.value < height)
    ensures Tracks(Process(m, height, view).0.tracker, h, b)
            <==> Tracks(m.tracker, h, b)
                 || (h == height && view.Some? && |view.value| == height + 1 && view.value[height] == b)
  {
  }

  lemma RollbackTracks(m: Minimal, target: nat, h: nat, b: byte)
    requires TracksUpToLast(m)
    ensures Tracks(Undone(m, target).0.tracker, h, b) <==> Tracks(m.tracker, h, b) && h <= target
  {
  }

  lemma OneMoreView(calls: seq<Call>, h: nat, b: byte)
    requires calls != [] && calls[|calls| - 1].ProcessBlock?
    ensures Viewed(calls, h, b)
            <==> Viewed(calls[..|calls| - 1], h, b) || Stands(calls, |calls| - 1, h, b)
  {
    var init := calls[..|calls| - 1];
    if i :| Stands(calls, i, h, b) && i < |calls| - 1 {
      assert Stands(init, i, h, b);
    }
    if i :| Stands(init, i, h, b) {
      assert Stands(calls, i, h, b);
    }
  }

  lemma OneMoreRollback(calls: seq<Call>, h: nat, b: byte)
    requires calls != [] && calls[|calls| - 1].Rollback?
    ensures Viewed(calls, h, b) <==> Viewed(calls[..|calls| - 1], h, b) && h <= calls[|calls| - 1].target
  {
    var init := calls[..|calls| - 1];
    if i :| Stands(calls, i, h, b) {
      assert Stands(init, i, h, b);
    }
    if i :| Stands(init, i, h, b) && h <= calls[|calls| - 1].target {
      assert Stands(calls, i, h, b);
    }
  }

  /** A "blocks" row of three columns: the height, the byte of its view, and the length of that view. */
  predicate IsRow(row: Json, height: nat, hashByte: byte) {
    && row.Object? && row.fields.Keys == {"height", "hash_byte", "tracker_length"}
    && row.fields["height"] == Number(height) && row.fields["hash_byte"] == Number(hashByte)
    && row.fields["tracker_length"] == Number(height + 1)
  }

  /** The message creates that row and is stamped with its height. */
  predicate CreatesRow(m: Message, height: nat, hashByte: byte) {
    && m.header == Header("debshrew-minimal", height, None)
    && m.payload.operation.Create? && m.payload.table == "blocks" && m.payload.key == Decimal(height)
    && m.payload.before.None? && m.payload.after.Some? && IsRow(m.payload.after.value, height, hashByte)
  }

  predicate HasRow(t: Table, height: nat, hashByte: byte) {
    ("blocks", Decimal(height)) in t && IsRow(t[("blocks", Decimal(height))], height, hashByte)
  }

  ghost predicate IsNumeral(s: string) {
    exists h: nat :: s == Decimal(h)
  }

  ghost predicate RowsAreViewed(t: Table, calls: seq<Call>) {
    && (forall h: nat, b: byte :: Viewed(calls, h, b) <==> HasRow(t, h, b))
    && forall k | k in t && k.0 == "blocks" :: IsNumeral(k.1)
  }

  /** In every ascending run the "blocks" table has just the rows the standing views gave, under the decimal
      numerals of their heights. */
  lemma TableIsViews(base: Table, calls: seq<Call>)
    requires Ascends(base, calls) && forall k | k in base :: k.0 != "blocks"
    ensures RowsAreViewed(After(base, calls).table, calls)
  {
    TrackerIsViews(base, calls);
    TrackerIsTable(base, calls);
    ViewedRows(After(base, calls).table, After(base, calls).transform.tracker, calls);
  }

  lemma ViewedRows(t: Table, tracker: map<nat, byte>, calls: seq<Call>)
    requires IsImage(t, tracker) && forall h: nat, b: byte :: Tracks(tracker, h, b) <==> Viewed(calls, h, b)
    ensures RowsAreViewed(t, calls)
  {
    ImageRows(t, tracker);
    forall h: nat, b: byte
      ensures Viewed(calls, h, b) <==> HasRow(t, h, b)
    {
      assert Tracks(tracker, h, b) <==> Viewed(calls, h, b);
    }
  }

  lemma ImageRows(t: Table, tracker: map<nat, byte>)
    requires IsImage(t, tracker)
    ensures forall h: nat, b: byte :: Tracks(tracker, h, b) <==> HasRow(t, h, b)
    ensures forall k | k in t && k.0 == "blocks" :: IsNumeral(k.1)
  {
    forall h: nat, b: byte
      ensures Tracks(tracker, h, b) <==> HasRow(t, h, b)
    {
      assert BlockKey(h) in t <==> h in tracker;
    }
    forall k | k in t && k.0 == "blocks"
      ensures IsNumeral(k.1)
    {
      var h: nat :| k == BlockKey(h);
      assert k.1 == Decimal(h);
    }
  }

  // ---------------------------------------------------------------- the messages of a rollback

  /** The message deletes the row of a height and is stamped with the target of the rollback. */
  predicate DeletesRow(m: Message, height: nat, hashByte: byte, target: nat) {
    && m.header == Header("debshrew-minimal", target, None)
    && m.payload.operation.Delete? && m.payload.table == "blocks" && m.payload.key == Decimal(height)
    && m.payload.before.Some? && IsRow(m.payload.before.value, height, hashByte) && m.payload.after.None?
  }

  function TrackedAbove(tracker: map<nat, byte>, target: nat, last: nat): seq<nat>
    decreases last
  {
    if last <= target then []
    else TrackedAbove(tracker, target, last - 1) + (if last in tracker then [last] else [])
  }

  predicate Rising(heights: seq<nat>) {
    forall i, j | 0 <= i < j < |heights| :: heights[i] < heights[j]
  }

  lemma {:induction false} TrackedAboveIs(tracker: map<nat, byte>, target: nat, last: nat)
    ensures Rising(TrackedAbove(tracker, target, last))
    ensures forall h: nat :: h in TrackedAbove(tracker, target, last) <==> target < h <= last && h in tracker
    decreases last
  {
    if target < last {
      var below := TrackedAbove(tracker, target, last - 1);
      TrackedAboveIs(tracker, target, last - 1);
      assert forall i | 0 <= i < |below| :: below[i] in below;
    }
  }

  predicate DeleteRows(ms: seq<Message>, heights: seq<nat>, tracker: map<nat, byte>, target: nat) {
    && |ms| == |heights|
    && forall i | 0 <= i < |ms| :: heights[i] in tracker && DeletesRow(ms[i], heights[i], tracker[heights[i]], target)
  }

  /** A rollback deletes one row for each tracked height above the target, in rising order. */
  lemma DeletesExactly(tracker: map<nat, byte>, target: nat, last: nat) returns (heights: seq<nat>)
    ensures Rising(heights) && forall h: nat :: h in heights <==> target < h <= last && h in tracker
    ensures DeleteRows(Deletes(tracker, target, last), heights, tracker, target)
  {
    heights := TrackedAbove(tracker, target, last);
    TrackedAboveIs(tracker, target, last);
    DeletesAreRows(tracker, target, last);
  }

  lemma {:induction false} DeletesAreRows(tracker: map<nat, byte>, target: nat, last: nat)
    ensures DeleteRows(Deletes(tracker, target, last), TrackedAbove(tracker, target, last), tracker, target)
    decreases last
  {
    if target < last {
      DeletesAreRows(tracker, target, last - 1);
      if last in tracker {
        OneMoreRow(
          Deletes(tracker, target, last - 1), TrackedAbove(tracker, target, last - 1), tracker, last, target);
      } else {
        assert Deletes(tracker, target, last) == Deletes(tracker, target, last - 1);
        assert TrackedAbove(tracker, target, last) == TrackedAbove(tracker, target, last - 1);
      }
    }
  }

  lemma OneMoreRow(ms: seq<Message>, heights: seq<nat>, tracker: map<nat, byte>, height: nat, target: nat)
    requires DeleteRows(ms, heights, tracker, target) && height in tracker
    ensures DeleteRows(
              ms + [DeleteMessage(height, tracker[height], target)], heights + [height], tracker, target)
  {
    assert DeletesRow(DeleteMessage(height, tracker[height], target), height, tracker[height], target);
  }

  // ---------------------------------------------------------------- the transform object

  class MinimalTransform {
    var blockTracker: map<nat, byte>
    var lastHeight: Option<nat>

    function Model(): Minimal
      reads this
    {
      Minimal(blockTracker, lastHeight)
    }

    constructor ()
      ensures Model() == Minimal(map[], None)
    {
      blockTracker, lastHeight := map[], None;
    }

    method ProcessBlock(height: nat, view: Option<seq<byte>>) returns (r: Result<seq<Message>, TransformError>)
      modifies this
      ensures (Model(), r) == Process(old(Model()), height, view)
      ensures r.Success? <==> view.Some? && |view.value| == height + 1
      ensures r.Failure? ==> Model() == old(Model())
      ensures r.Failure? ==> r.error == if view.None? then ViewFailed else UnexpectedLength(|view.value|, height + 1)
      ensures r.Success? ==>
                && blockTracker == old(blockTracker)[height := view.value[height]] && lastHeight == Some(height)
                && |r.value| == 1 && CreatesRow(r.value[0], height, view.value[height])
    {
      if view.None? {
        return Failure(ViewFailed);
      }
      var blocktrackerData := view.value;
      var expectedLength := height + 1;
      if |blocktrackerData| != expectedLength {
        return Failure(UnexpectedLength(|blocktrackerData|, expectedLength));
      }
      var blockHashByte := blocktrackerData[height];
      var cdcMessages := [CreateMessage(height, blockHashByte, |blocktrackerData|)];
      blockTracker := blockTracker[height := blockHashByte];
      lastHeight := Some(height);
      return Success(cdcMessages);
    }

    method Rollback(target: nat) returns (cdcMessages: seq<Message>)
      modifies this
      ensures (Model(), cdcMessages) == Undone(old(Model()), target)
      ensures lastHeight == Some(target)
      ensures old(lastHeight).None? ==> cdcMessages == [] && blockTracker == old(blockTracker)
      ensures old(lastHeight).Some? ==>
                forall h :: h in blockTracker <==>
                            h in old(blockTracker) && !(target < h <= old(lastHeight).value)
      ensures forall h | h in blockTracker :: blockTracker[h] == old(blockTracker)[h]
    {
      cdcMessages := [];
      if lastHeight.Some? {
        var last := lastHeight.value;
        var height := target + 1;
        assert Kept(blockTracker, target, target) == blockTracker;
        while height <= last
          invariant target < height && (height == target + 1 || height <= last + 1)
          invariant lastHeight == Some(last)
          invariant cdcMessages == Deletes(old(blockTracker), target, height - 1)
          invariant blockTracker == Kept(old(blockTracker), target, height - 1)
        {
          if height in blockTracker {
            cdcMessages := cdcMessages + [DeleteMessage(height, blockTracker[height], target)];
            blockTracker := blockTracker - {height};
          }
          height := height + 1;
        }
        if last <= target {
          assert Kept(old(blockTracker), target, last) == old(blockTracker);
        } else {
          assert height - 1 == last;
        }
        assert cdcMessages == Deletes(old(blockTracker), target, last);
        assert blockTracker == Kept(old(blockTracker), target, last);
      }
      lastHeight := Some(target);
    }
  }
}
