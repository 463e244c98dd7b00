/** The Postgres sink: buffered batches, each applied in one transaction of keyed-row statements. */
module Postgres {
  import opened Wrappers
  import opened Errors
  import opened Cdc

  type Row = map<string, Json>
  type Database = map<Key, Row>

  // ---------------------------------------------------------------- statements

  /** One statement: an insert needs a new key, an update sets only the columns it names, both need
      `after` to be an object with at least one field, and a missing `after` runs no statement. */
  function ExecOne(d: Database, p: Payload): Option<Database> {
    match p.operation
    case Create =>
      if p.after.None? then Some(d)
      else if !p.after.value.Object? || p.after.value.fields == map[] || KeyOf(p) in d then None
      else Some(d[KeyOf(p) := p.after.value.fields])
    case Update =>
      if p.after.None? then Some(d)
      else if !p.after.value.Object? || p.after.value.fields == map[] then None
      else if KeyOf(p) in d then Some(d[KeyOf(p) := d[KeyOf(p)] + p.after.value.fields])
      else Some(d)
    case Delete => Some(d - {KeyOf(p)})
  }

  /** When a statement fails: an insert or update of something that is no object with fields, or an insert of a
      row that is there. */
  lemma StatementFailsExactly(d: Database, p: Payload)
    ensures ExecOne(d, p).None?
            <==> && !p.operation.Delete? && p.after.Some?
                 && (p.after.value.Object? && p.after.value.fields != map[] ==> p.operation.Create? && KeyOf(p) in d)
  {
  }

  /** What a statement does, column by column: it touches no other row, and an update no column it does not name. */
  lemma StatementEffect(d: Database, p: Payload)
    requires ExecOne(d, p).Some?
    ensures var after, k := ExecOne(d, p).value, KeyOf(p);
            && (forall x | x != k :: (x in after <==> x in d) && (x in d ==> after[x] == d[x]))
            && match p.operation
               case Delete => k !in after
               case Create =>
                 (k in after <==> k in d || p.after.Some?)
                 && (k in after ==> after[k] == if p.after.Some? then p.after.value.fields else d[k])
               case Update =>
                 && (k in after <==> k in d)
                 && (k in d && p.after.None? ==> after[k] == d[k])
                 && (k in d && p.after.Some? ==>
                       var named := p.after.value.fields;
                       && (forall c :: c in after[k] <==> c in named || c in d[k])
                       && (forall c | c in after[k] :: after[k][c] == if c in named then named[c] else d[k][c]))
  {
  }

  function Exec(d: Database, ps: seq<Payload>): Option<Database>
    decreases |ps|
  {
    if ps == [] then Some(d)
    else match ExecOne(d, ps[0])
      case None => None
      case Some(next) => Exec(next, ps[1..])
  }

  lemma ExecSingle(d: Database, p: Payload)
    ensures Exec(d, [p]) == ExecOne(d, p)
  {
  }

  lemma {:induction false} ExecConcat(d: Database, a: seq<Payload>, b: seq<Payload>)
    ensures Exec(d, a + b) == match Exec(d, a) case None => None case Some(next) => Exec(next, b)
    decreases |a|
  {
    if a == [] {
      assert a + b == b;
    } else {
      assert (a + b)[1..] == a[1..] + b;
      if ExecOne(d, a[0]).Some? {
        ExecConcat(ExecOne(d, a[0]).value, a[1..], b);
      }
    }
  }

  // ---------------------------------------------------------------- the sink on values

  datatype Sink = Sink(batchSize: nat, buffer: seq<Message>, database: Database)

  datatype Sent = Sent(sink: Sink, ok: bool)

  /** A transaction: all of the messages or, on any failure, none of them. */
  function Transact(s: Sink, messages: seq<Message>, reachable: bool): Sent {
    if reachable && Exec(s.database, Payloads(messages)).Some?
    then Sent(s.(database := Exec(s.database, Payloads(messages)).value), true)
    else Sent(s, false)
  }

  datatype SinkCall = Send(messages: seq<Message>) | Flush

  function Perform(s: Sink, call: SinkCall, reachable: bool): Sent {
    match call
    case Send(messages) =>
      var pending := s.buffer + messages;
      if |pending| >= s.batchSize then Transact(s.(buffer := []), pending, reachable)
      else Sent(s.(buffer := pending), true)
    case Flush => if s.buffer == [] then Sent(s, true) else Transact(s.(buffer := []), s.buffer, reachable)
  }

  /** With fewer messages than a batch in all, a send only buffers them and the database plays no part; otherwise
      it empties the buffer and applies everything in one transaction. */
  lemma SendExactly(s: Sink, messages: seq<Message>, reachable: bool)
    ensures |s.buffer| + |messages| < s.batchSize ==>
              Perform(s, Send(messages), reachable) == Sent(s.(buffer := s.buffer + messages), true)
    ensures s.batchSize <= |s.buffer| + |messages| ==>
              var r, after := Perform(s, Send(messages), reachable), Exec(s.database, Payloads(s.buffer + messages));
              && r.sink.buffer == [] && r.sink.batchSize == s.batchSize
              && (r.ok <==> reachable && after.Some?)
              && r.sink.database == if r.ok then after.value else s.database
  {
  }

  /** A flush does nothing with an empty buffer, whether or not the database answers. */
  lemma FlushExactly(s: Sink, reachable: bool)
    ensures s.buffer == [] ==> Perform(s, Flush, reachable) == Sent(s, true)
    ensures s.buffer != [] ==>
              var r, after := Perform(s, Flush, reachable), Exec(s.database, Payloads(s.buffer));
              && r.sink.buffer == [] && r.sink.batchSize == s.batchSize
              && (r.ok <==> reachable && after.Some?)
              && r.sink.database == if r.ok then after.value else s.database
  {
  }

  /** Calls in order up to the first that fails; `reachable(i)` says whether the database answers call `i`. */
  function PerformAll(s: Sink, calls: seq<SinkCall>, reachable: nat -> bool): Sent {
    if calls == [] then Sent(s, true)
    else
      var n := |calls| - 1;
      var r := PerformAll(s, calls[..n], reachable);
      if !r.ok then r else Perform(r.sink, calls[n], reachable(n))
  }

  function Carries(call: SinkCall): seq<Message> {
    match call
    case Send(messages) => messages
    case Flush => []
  }

  function Given(calls: seq<SinkCall>): seq<Message> {
    if calls == [] then []
    else Given(calls[..|calls| - 1]) + Carries(calls[|calls| - 1])
  }

  /** The messages already applied are all of those given but the buffered ones. */
  ghost predicate Applied(s: Sink, start: Database, given: seq<Message>) {
    && |s.buffer| <= |given| && s.buffer == given[|given| - |s.buffer|..]
    && Exec(start, Payloads(given[..|given| - |s.buffer|])) == Some(s.database)
  }

  lemma PerformApplies(s: Sink, call: SinkCall, reachable: bool, start: Database, given: seq<Message>)
    requires Applied(s, start, given) && Perform(s, call, reachable).ok
    ensures Applied(Perform(s, call, reachable).sink, start, given + Carries(call))
  {
    var more := Carries(call);
    var done := given[..|given| - |s.buffer|];
    var pending := s.buffer + more;
    assert done + pending == given + more;
    PayloadsConcat(done, pending);
    ExecConcat(start, Payloads(done), Payloads(pending));
    assert (given + more)[..|given + more|] == given + more;
    assert (given + more)[..|given + more| - |pending|] == done;
    assert s.buffer + [] == s.buffer;
    assert pending == (given + more)[|given + more| - |pending|..];
  }

  lemma FlushCompletes(s: Sink, start: Database, given: seq<Message>, reachable: bool)
    requires Applied(s, start, given) && Perform(s, Flush, reachable).ok
    ensures Exec(start, Payloads(given)) == Some(Perform(s, Flush, reachable).sink.database)
  {
    PerformApplies(s, Flush, reachable, start, given);
    assert given + [] == given && given[..|given|] == given;
  }

  /** Batching is invisible: after any calls that succeeded, what is applied is everything given up to the
      buffered tail, the tail is shorter than a batch, and a flush leaves the database as if each message
      had been executed by itself. */
  lemma BatchingInvisible(
      batchSize: nat, start: Database, calls: seq<SinkCall>, reachable: nat -> bool)
    requires batchSize > 0 && PerformAll(Sink(batchSize, [], start), calls, reachable).ok
    ensures var s := PerformAll(Sink(batchSize, [], start), calls, reachable).sink;
            && Applied(s, start, Given(calls)) && |s.buffer| < batchSize == s.batchSize
            && (Perform(s, Flush, true).ok ==>
                  Exec(start, Payloads(Given(calls))) == Some(Perform(s, Flush, true).sink.database))
  {
    var s := PerformAll(Sink(batchSize, [], start), calls, reachable).sink;
    BufferIsTail(Sink(batchSize, [], start), calls, reachable);
    if Perform(s, Flush, true).ok {
      FlushCompletes(s, start, Given(calls), true);
    }
  }

  lemma {:induction false} BufferIsTail(s: Sink, calls: seq<SinkCall>, reachable: nat -> bool)
    requires s.batchSize > 0 && s.buffer == [] && PerformAll(s, calls, reachable).ok
    ensures var after := PerformAll(s, calls, reachable).sink;
            Applied(after, s.database, Given(calls)) && |after.buffer| < s.batchSize == after.batchSize
    decreases |calls|
  {
    if calls == [] {
      NothingApplied(s);
    } else {
      var n := |calls| - 1;
      BufferIsTail(s, calls[..n], reachable);
      var before := PerformAll(s, calls[..n], reachable).sink;
      PerformKeepsTail(before, calls[n], reachable(n), s.database, Given(calls[..n]));
    }
  }

  lemma NothingApplied(s: Sink)
    requires s.buffer == []
    ensures Applied(s, s.database, [])
  {
    var none: seq<Message> := [];
    assert none[..0] == none;
  }

  lemma PerformKeepsTail(s: Sink, call: SinkCall, reachable: bool, start: Database, given: seq<Message>)
    requires Applied(s, start, given) && |s.buffer| < s.batchSize && Perform(s, call, reachable).ok
    ensures var after := Perform(s, call, reachable).sink;
            Applied(after, start, given + Carries(call)) && |after.buffer| < s.batchSize == after.batchSize
  {
    PerformApplies(s, call, reachable, start, given);
  }

  function Joined(batches: seq<seq<Message>>): seq<Message> {
    if batches == [] then [] else Joined(batches[..|batches| - 1]) + batches[|batches| - 1]
  }

  /** These were the transactions of the calls: each of at least a batch, together what was given but the buffer. */
  ghost predicate AreTransactions(batches: seq<seq<Message>>, s: Sink, start: Database, given: seq<Message>) {
    && Joined(batches) + s.buffer == given
    && (forall b | b in batches :: s.batchSize <= |b|)
    && Exec(start, Payloads(Joined(batches))) == Some(s.database)
  }

  /** Over any successful calls without a flush, every transaction carries at least `batchSize` messages, and there
      is one for each send that fills the buffer, so at most one a send. */
  lemma {:induction false} TransactionsAreBatches(s: Sink, calls: seq<SinkCall>, reachable: nat -> bool)
    returns (batches: seq<seq<Message>>)
    requires s.batchSize > 0 && s.buffer == [] && PerformAll(s, calls, reachable).ok
    requires forall i | 0 <= i < |calls| :: calls[i].Send?
    ensures |batches| <= |calls| && |PerformAll(s, calls, reachable).sink.buffer| < s.batchSize
    ensures PerformAll(s, calls, reachable).sink.batchSize == s.batchSize
    ensures AreTransactions(batches, PerformAll(s, calls, reachable).sink, s.database, Given(calls))
    decreases |calls|
  {
    if calls == [] {
      batches := [];
    } else {
      var n := |calls| - 1;
      batches := TransactionsAreBatches(s, calls[..n], reachable);
      var before := PerformAll(s, calls[..n], reachable).sink;
      var pending := before.buffer + calls[n].messages;
      SendExactly(before, calls[n].messages, reachable(n));
      NextTransaction(batches, before, s.database, Given(calls[..n]), calls[n].messages, reachable(n));
      if s.batchSize <= |pending| {
        batches := batches + [pending];
      }
    }
  }

  lemma NextTransaction(
      batches: seq<seq<Message>>, s: Sink, start: Database, given: seq<Message>, messages: seq<Message>,
      reachable: bool)
    requires AreTransactions(batches, s, start, given) && Perform(s, Send(messages), reachable).ok
    ensures AreTransactions(
              if s.batchSize <= |s.buffer| + |messages| then batches + [s.buffer + messages] else batches,
              Perform(s, Send(messages), reachable).sink, start, given + messages)
  {
    var pending := s.buffer + messages;
    SendExactly(s, messages, reachable);
    assert Joined(batches) + pending == given + messages;
    if s.batchSize <= |pending| {
      assert (batches + [pending])[..|batches|] == batches;
      PayloadsConcat(Joined(batches), pending);
      ExecConcat(start, Payloads(Joined(batches)), Payloads(pending));
      assert given + messages + [] == given + messages;
    }
  }

  /** With a database that answers, the calls and a final flush succeed exactly when every message given
      can be executed one after another. */
  lemma SucceedsExactly(batchSize: nat, start: Database, calls: seq<SinkCall>)
    requires batchSize > 0
    ensures var r := PerformAll(Sink(batchSize, [], start), calls, i => true);
            r.ok && Perform(r.sink, Flush, true).ok <==> Exec(start, Payloads(Given(calls))).Some?
  {
    var up := i => true;
    var r := PerformAll(Sink(batchSize, [], start), calls, up);
    if Exec(start, Payloads(Given(calls))).Some? {
      NeverFails(batchSize, start, calls, up);
      BatchingInvisible(batchSize, start, calls, up);
      assert Given(calls) + [] == Given(calls);
      PerformSucceeds(r.sink, Flush, start, Given(calls));
    } else if r.ok {
      BatchingInvisible(batchSize, start, calls, up);
    }
  }

  lemma PerformSucceeds(s: Sink, call: SinkCall, start: Database, given: seq<Message>)
    requires Applied(s, start, given) && Exec(start, Payloads(given + Carries(call))).Some?
    ensures Perform(s, call, true).ok
  {
    var done := given[..|given| - |s.buffer|];
    var pending := s.buffer + Carries(call);
    assert done + pending == given + Carries(call);
    assert s.buffer + [] == s.buffer;
    PayloadsConcat(done, pending);
    ExecConcat(start, Payloads(done), Payloads(pending));
  }

  lemma {:induction false} NeverFails(batchSize: nat, start: Database, calls: seq<SinkCall>, up: nat -> bool)
    requires batchSize > 0 && Exec(start, Payloads(Given(calls))).Some? && forall i :: up(i)
    ensures PerformAll(Sink(batchSize, [], start), calls, up).ok
    decreases |calls|
  {
    if calls != [] {
      var n := |calls| - 1;
      var given := Given(calls[..n]);
      PayloadsConcat(given, Carries(calls[n]));
      ExecConcat(start, Payloads(given), Payloads(Carries(calls[n])));
      NeverFails(batchSize, start, calls[..n], up);
      BatchingInvisible(batchSize, start, calls[..n], up);
      PerformSucceeds(PerformAll(Sink(batchSize, [], start), calls[..n], up).sink, calls[n], start, given);
    }
  }

  // ---------------------------------------------------------------- the sink object

  /** `database` stands for the tables behind the connection. */
  class PostgresSink {
    const batchSize: nat
    var buffer: seq<Message>
    var database: Database

    function Model(): Sink
      reads this
    {
      Sink(batchSize, buffer, database)
    }

    constructor (batchSize: nat, database: Database)
      ensures Model() == Sink(batchSize, [], database)
    {
      this.batchSize, this.database := batchSize, database;
      buffer := [];
    }

    method ApplyMessages(messages: seq<Message>, reachable: bool) returns (error: Option<Error>)
      modifies this`database
      ensures Sent(Model(), error.None?) == Transact(old(Model()), messages, reachable)
      ensures error.Some? ==> database == old(database)
      ensures error.None? <==> reachable && Exec(old(database), Payloads(messages)).Some?
      ensures error.None? ==> Some(database) == Exec(old(database), Payloads(messages))
    {
      if !reachable {
        return Some(SinkFailed);
      }
      var transaction := database;
      for i := 0 to |messages|
        invariant Exec(database, Payloads(messages)) == Exec(transaction, Payloads(messages)[i..])
      {
        var next := ExecOne(transaction, messages[i].payload);
        if next.None? {
          return Some(SinkFailed);
        }
        assert Payloads(messages)[i..][1..] == Payloads(messages)[i + 1..];
        transaction := next.value;
      }
      database := transaction;
      return None;
    }

    /** The batch has left the buffer before it is applied, so a batch that fails is dropped. */
    method Send(messages: seq<Message>, reachable: bool) returns (error: Option<Error>)
      modifies this
      ensures Sent(Model(), error.None?) == Perform(old(Model()), SinkCall.Send(messages), reachable)
      ensures error.Some? ==> buffer == [] && database == old(database)
      ensures |old(buffer)| + |messages| < batchSize ==>
                error.None? && buffer == old(buffer) + messages && database == old(database)
      ensures batchSize <= |old(buffer)| + |messages| ==>
                var after := Exec(old(database), Payloads(old(buffer) + messages));
                && buffer == [] && (error.None? <==> reachable && after.Some?)
                && (error.None? ==> Some(database) == after)
    {
      buffer := buffer + messages;
      if |buffer| >= batchSize {
        var messagesToSend := buffer;
        buffer := [];
        error := ApplyMessages(messagesToSend, reachable);
        return;
      }
      return None;
    }

    method Flush(reachable: bool) returns (error: Option<Error>)
      modifies this
      ensures Sent(Model(), error.None?) == Perform(old(Model()), SinkCall.Flush, reachable)
      ensures buffer == []
      ensures old(buffer) == [] ==> error.None? && database == old(database)
      ensures old(buffer) != [] ==>
                (error.None? <==> reachable && Exec(old(database), Payloads(old(buffer))).Some?)
      ensures old(buffer) != [] && error.None? ==> Some(database) == Exec(old(database), Payloads(old(buffer)))
    {
      var messagesToSend := buffer;
      buffer := [];
      if messagesToSend != [] {
        error := ApplyMessages(messagesToSend, reachable);
        return;
      }
      return None;
    }
  }

  // ---------------------------------------------------------------- rows against message values

  /** Every row is the object the change messages last gave for its key. */
  ghost predicate Mirrors(d: Database, t: Table) {
    d.Keys == t.Keys && forall k | k in d :: t[k] == Object(d[k])
  }

  /** An update leaves the row equal to its `after` exactly when `after` names every column of the row. */
  lemma UpdateMirrorsExactly(d: Database, t: Table, p: Payload)
    requires Mirrors(d, t) && Fits(t, p) && p.operation.Update?
    requires p.after.value.Object? && p.after.value.fields != map[]
    ensures ExecOne(d, p).Some?
    ensures Mirrors(ExecOne(d, p).value, ApplyOne(t, p)) <==> d[KeyOf(p)].Keys <= p.after.value.fields.Keys
  {
    var row, after := d[KeyOf(p)], p.after.value.fields;
    if row.Keys <= after.Keys {
      assert row + after == after;
    } else {
      assert (row + after).Keys != after.Keys;
      assert ExecOne(d, p).value[KeyOf(p)] == row + after;
      assert ApplyOne(t, p)[KeyOf(p)] == Object(after);
    }
  }

  /** Values are objects over the columns of their table. */
  predicate ValueConforms(v: Option<Json>, columns: set<string>) {
    v.Some? ==> v.value.Object? && v.value.fields.Keys == columns
  }

  ghost predicate Conforms(ps: seq<Payload>, columns: string -> set<string>) {
    forall i | 0 <= i < |ps| ::
      && columns(ps[i].table) != {}
      && ValueConforms(ps[i].before, columns(ps[i].table)) && ValueConforms(ps[i].after, columns(ps[i].table))
  }

  ghost predicate RowsConform(d: Database, columns: string -> set<string>) {
    forall k | k in d :: d[k].Keys == columns(k.0)
  }

  /** On messages that fit and name all columns, the statements never fail and mirror the change stream. */
  lemma {:induction false} ExecMirrors(d: Database, t: Table, ps: seq<Payload>, columns: string -> set<string>)
    requires Mirrors(d, t) && RowsConform(d, columns) && Valid(t, ps) && Conforms(ps, columns)
    ensures Exec(d, ps).Some? && Mirrors(Exec(d, ps).value, Apply(t, ps))
    decreases |ps|
  {
    if ps != [] {
      var p := ps[0];
      match p.operation {
        case Create => assert p.after.value.fields.Keys != {};
        case Update =>
          assert p.after.value.fields.Keys != {};
          UpdateMirrorsExactly(d, t, p);
        case Delete =>
      }
      ExecMirrors(ExecOne(d, p).value, ApplyOne(t, p), ps[1..], columns);
    }
  }

  // ---------------------------------------------------------------- when the statements succeed

  /** From this value of the row, every create of it in the list finds no row. */
  predicate InsertsAt(v: Option<Json>, ps: seq<Payload>, k: Key)
    decreases |ps|
  {
    ps != [] ==>
      && (KeyOf(ps[0]) == k && ps[0].operation.Create? && ps[0].after.Some? ==> v.None?)
      && InsertsAt(StepAt(v, ps[0], k), ps[1..], k)
  }

  /** Every create in the list finds no row. */
  ghost predicate InsertsNew(t: Table, ps: seq<Payload>) {
    forall k :: InsertsAt(Lookup(t, k), ps, k)
  }

  /** Going back through the list, every delete of the row that is undone finds no row. */
  predicate UndoesAt(v: Option<Json>, ps: seq<Payload>, k: Key)
    decreases |ps|
  {
    ps != [] ==>
      && UndoesAt(v, ps[1..], k)
      && (KeyOf(ps[0]) == k && ps[0].operation.Delete? && ps[0].before.Some? ==> RewoundAt(v, ps[1..], k).None?)
  }

  lemma ExecOneExactly(d: Database, t: Table, p: Payload, columns: string -> set<string>)
    requires Mirrors(d, t) && RowsConform(d, columns) && Conforms([p], columns)
    ensures ExecOne(d, p).Some? <==> (p.operation.Create? && p.after.Some? ==> KeyOf(p) !in t)
    ensures ExecOne(d, p).Some? ==>
              Mirrors(ExecOne(d, p).value, ApplyOne(t, p)) && RowsConform(ExecOne(d, p).value, columns)
  {
    assert columns([p][0].table) != {} && ValueConforms([p][0].after, columns([p][0].table));
    if p.operation.Update? && p.after.Some? && KeyOf(p) in d {
      assert d[KeyOf(p)] + p.after.value.fields == p.after.value.fields;
    }
  }

  /** Messages that name all columns, whether or not they fit: the statements succeed exactly when at each key
      every insert finds no row, and then the rows follow the keyed table. */
  lemma {:induction false} ExecSucceedsExactly(
      d: Database, t: Table, ps: seq<Payload>, columns: string -> set<string>)
    requires Mirrors(d, t) && RowsConform(d, columns) && Conforms(ps, columns)
    ensures Exec(d, ps).Some? <==> InsertsNew(t, ps)
    ensures Exec(d, ps).Some? ==> Mirrors(Exec(d, ps).value, Apply(t, ps)) && RowsConform(Exec(d, ps).value, columns)
    decreases |ps|
  {
    if ps != [] {
      var p, next := ps[0], ApplyOne(t, ps[0]);
      ExecOneExactly(d, t, p, columns);
      FirstInsert(t, ps);
      if ExecOne(d, p).Some? {
        ExecSucceedsExactly(ExecOne(d, p).value, next, ps[1..], columns);
      }
    }
  }

  lemma FirstInsert(t: Table, ps: seq<Payload>)
    requires ps != []
    ensures InsertsNew(t, ps)
            <==> && (ps[0].operation.Create? && ps[0].after.Some? ==> KeyOf(ps[0]) !in t)
                 && InsertsNew(ApplyOne(t, ps[0]), ps[1..])
  {
    var p := ps[0];
    forall k
      ensures Lookup(ApplyOne(t, p), k) == StepAt(Lookup(t, k), p, k)
    {
    }
    if InsertsNew(t, ps) {
      assert InsertsAt(Lookup(t, KeyOf(p)), ps, KeyOf(p));
      forall k
        ensures InsertsAt(Lookup(ApplyOne(t, p), k), ps[1..], k)
      {
        assert InsertsAt(Lookup(t, k), ps, k);
      }
    }
  }

  lemma {:induction false} InsertsConcat(v: Option<Json>, a: seq<Payload>, b: seq<Payload>, k: Key)
    ensures InsertsAt(v, a + b, k) <==> InsertsAt(v, a, k) && InsertsAt(ReplayAt(v, a, k), b, k)
    decreases |a|
  {
    if a == [] {
      assert a + b == b;
    } else {
      assert (a + b)[1..] == a[1..] + b;
      InsertsConcat(StepAt(v, a[0], k), a[1..], b, k);
    }
  }

  lemma {:induction false} InverseInserts(v: Option<Json>, ps: seq<Payload>, k: Key)
    ensures InsertsAt(v, Inverse(ps), k) <==> UndoesAt(v, ps, k)
    ensures ReplayAt(v, Inverse(ps), k) == RewoundAt(v, ps, k)
    decreases |ps|
  {
    var t: Table := if v.Some? then map[k := v.value] else map[];
    ReplayAtIs(t, Inverse(ps), k);
    RewoundAtIs(t, ps, k);
    if ps == [] {
      assert Inverse(ps) == [];
    } else {
      var rest := ps[1..];
      InverseInserts(v, rest, k);
      assert ps == [ps[0]] + rest && Inverse([ps[0]]) == [InvertPayload(ps[0])];
      InverseConcat([ps[0]], rest);
      InsertsConcat(v, Inverse(rest), [InvertPayload(ps[0])], k);
    }
  }

  /** A fitting list creates no row that is there. */
  lemma {:induction false} ValidInserts(t: Table, ps: seq<Payload>)
    requires Valid(t, ps)
    ensures InsertsNew(t, ps)
    decreases |ps|
  {
    if ps != [] {
      ValidInserts(ApplyOne(t, ps[0]), ps[1..]);
      FirstInsert(t, ps);
    }
  }

  lemma InverseConforms(ps: seq<Payload>, columns: string -> set<string>)
    requires Conforms(ps, columns)
    ensures Conforms(Inverse(ps), columns)
  {
    forall i | 0 <= i < |ps|
      ensures columns(Inverse(ps)[i].table) != {}
              && ValueConforms(Inverse(ps)[i].before, columns(Inverse(ps)[i].table))
              && ValueConforms(Inverse(ps)[i].after, columns(Inverse(ps)[i].table))
    {
      assert Inverse(ps)[i] == InvertPayload(ps[|ps| - 1 - i]);
    }
  }
}
