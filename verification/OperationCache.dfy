/** The store of recent operation results that answers repeated requests. */
module OperationCache {
  import opened Options

  /** One property of the stored object; properties are listed in enumeration order. */
  datatype Entry<R> = Entry(id: string, created: int, result: R)

  function Find<R>(data: seq<Entry<R>>, id: string): Option<R> {
    if data == [] then None
    else if data[0].id == id then Some(data[0].result)
    else Find(data[1..], id)
  }

  function Upsert<R>(data: seq<Entry<R>>, e: Entry<R>): seq<Entry<R>> {
    if data == [] then [e]
    else if data[0].id == e.id then [e] + data[1..]
    else [data[0]] + Upsert(data[1..], e)
  }

  function Unexpired<R>(data: seq<Entry<R>>, cutoff: int): seq<Entry<R>> {
    if data == [] then []
    else (if data[0].created >= cutoff then [data[0]] else []) + Unexpired(data[1..], cutoff)
  }

  /** A stable sort by time, newest first. */
  function Newest<R>(data: seq<Entry<R>>): seq<Entry<R>> {
    if data == [] then [] else Insert(data[0], Newest(data[1..]))
  }

  function Insert<R>(e: Entry<R>, sorted: seq<Entry<R>>): seq<Entry<R>> {
    if sorted == [] || e.created >= sorted[0].created then [e] + sorted
    else [sorted[0]] + Insert(e, sorted[1..])
  }

  function Take<R>(data: seq<Entry<R>>, n: nat): seq<Entry<R>> {
    if |data| <= n then data else data[..n]
  }

  function Pruned<R>(data: seq<Entry<R>>, cutoff: int, maxEntries: nat): seq<Entry<R>> {
    Take(Newest(Unexpired(data, cutoff)), maxEntries)
  }

  class OperationCache<R> {
    const ttlMs: nat
    const maxEntries: nat
    var data: seq<Entry<R>>

    constructor (ttlMs: nat, maxEntries: nat, stored: seq<Entry<R>>, now: int)
      ensures this.ttlMs == ttlMs && this.maxEntries == maxEntries
      ensures data == Pruned(stored, now - ttlMs, maxEntries)
    {
      this.ttlMs, this.maxEntries := ttlMs, maxEntries;
      data := stored;
      new;
      Prune(now);
    }

    method Prune(now: int)
      modifies this
      ensures data == Pruned(old(data), now - ttlMs, maxEntries)
    {
      var cutoff := now - ttlMs;
      var entries: seq<Entry<R>>, i := [], |data|;
      assert data[i..] == [];
      while i > 0
        invariant 0 <= i <= |data|
        invariant entries == Newest(Unexpired(data[i..], cutoff))
      {
        i := i - 1;
        assert data[i..][1..] == data[i + 1..];
        if data[i].created >= cutoff {
          ghost var rest := Unexpired(data[i + 1..], cutoff);
          assert ([data[i]] + rest)[1..] == rest;
          entries := Insert(data[i], entries);
        } else {
          assert [] + Unexpired(data[i + 1..], cutoff) == Unexpired(data[i + 1..], cutoff);
        }
      }
      assert data[0..] == data;
      data := if |entries| <= maxEntries then entries else entries[..maxEntries];
    }

    method Get(operationId: string, now: int) returns (result: Option<R>)
      modifies this
      ensures data == Pruned(old(data), now - ttlMs, maxEntries)
      ensures result == Find(data, operationId)
    {
      Prune(now);
      result := Find(data, operationId);
    }

    method Put(operationId: string, result: R, now: int)
      modifies this
      ensures data == Pruned(Upsert(old(data), Entry(operationId, now, result)), now - ttlMs, maxEntries)
    {
      data := Upsert(data, Entry(operationId, now, result));
      Prune(now);
    }
  }

  // ---------------------------------------------------------------------------
  // Refinement of the full history
  // ---------------------------------------------------------------------------

  datatype Op<R> = PutOp(id: string, result: R) | LookOp

  /** An operation at a time of the clock. */
  datatype Timed<R> = Timed(op: Op<R>, now: int)

  function Do<R>(data: seq<Entry<R>>, t: Timed<R>, ttl: nat, maxEntries: nat): seq<Entry<R>> {
    match t.op
    case PutOp(id, result) => Pruned(Upsert(data, Entry(id, t.now, result)), t.now - ttl, maxEntries)
    case LookOp => Pruned(data, t.now - ttl, maxEntries)
  }

  function Run<R>(ops: seq<Timed<R>>, ttl: nat, maxEntries: nat): seq<Entry<R>> {
    if ops == [] then [] else Do(Run(ops[..|ops| - 1], ttl, maxEntries), ops[|ops| - 1], ttl, maxEntries)
  }

  function Except<R>(data: seq<Entry<R>>, id: string): seq<Entry<R>> {
    if data == [] then []
    else (if data[0].id == id then [] else [data[0]]) + Except(data[1..], id)
  }

  /** Everything ever put, last put per id, newest first. */
  function History<R>(ops: seq<Timed<R>>): seq<Entry<R>> {
    if ops == [] then []
    else
      var t, before := ops[|ops| - 1], History(ops[..|ops| - 1]);
      match t.op
      case PutOp(id, result) => [Entry(id, t.now, result)] + Except(before, id)
      case LookOp => before
  }

  /** The clock never goes back, and moves between puts. */
  ghost predicate Clocked<R>(ops: seq<Timed<R>>) {
    && (forall i, j :: 0 <= i < j < |ops| ==> ops[i].now <= ops[j].now)
    && (forall i, j :: 0 <= i < j < |ops| && ops[i].op.PutOp? && ops[j].op.PutOp? ==> ops[i].now < ops[j].now)
  }

  /** Strictly newest first, one entry per id. */
  ghost predicate Ordered<R>(data: seq<Entry<R>>) {
    data == []
      || (Ordered(data[1..]) && forall e :: e in data[1..] ==> e.created < data[0].created && e.id != data[0].id)
  }

  lemma UnexpiredPrefix<R>(data: seq<Entry<R>>, cutoff: int)
    requires Ordered(data)
    ensures Unexpired(data, cutoff) <= data && Ordered(Unexpired(data, cutoff))
    ensures data != [] && data[0].created < cutoff ==> Unexpired(data, cutoff) == []
  {
    if data != [] {
      assert Ordered(data[1..]);
      UnexpiredPrefix(data[1..], cutoff);
      if data[0].created < cutoff { AllExpired(data, cutoff); }
    }
  }

  lemma AllExpired<R>(data: seq<Entry<R>>, cutoff: int)
    requires forall e :: e in data ==> e.created < cutoff
    ensures Unexpired(data, cutoff) == []
  {}

  lemma {:induction false} NewestOfOrdered<R>(data: seq<Entry<R>>)
    requires Ordered(data)
    ensures Newest(data) == data
  {
    if data != [] { NewestOfOrdered(data[1..]); }
  }

  /** Pruning what was pruned earlier is pruning the whole list now. */
  lemma {:induction false} TakeUnexpired<R>(data: seq<Entry<R>>, early: int, late: int, n: nat)
    requires Ordered(data) && early <= late
    ensures Unexpired(Take(Unexpired(data, early), n), late) == Take(Unexpired(data, late), n)
    decreases data
  {
    if data != [] {
      UnexpiredPrefix(data, early);
      UnexpiredPrefix(data, late);
      if data[0].created >= early && n > 0 {
        TakeUnexpired(data[1..], early, late, n - 1);
        TakeCons(data[0], Unexpired(data[1..], early), n);
        TakeCons(data[0], Unexpired(data[1..], late), n);
        if data[0].created < late { UnexpiredPrefix(data[1..], late); }
      }
    }
  }

  lemma TakeCons<R>(e: Entry<R>, rest: seq<Entry<R>>, n: nat)
    requires n > 0
    ensures Take([e] + rest, n) == [e] + Take(rest, n - 1)
  {}

  lemma {:induction false} NotThere<R>(data: seq<Entry<R>>, id: string)
    requires forall e :: e in data ==> e.id != id
    ensures Except(data, id) == data
  {
    if data != [] { NotThere(data[1..], id); }
  }

  lemma {:induction false} ExceptMember<R>(data: seq<Entry<R>>, id: string, e: Entry<R>)
    ensures e in Except(data, id) <==> e in data && e.id != id
  {
    if data != [] {
      ExceptMember(data[1..], id, e);
      assert data == [data[0]] + data[1..];
    }
  }

  lemma {:induction false} ExceptOrdered<R>(data: seq<Entry<R>>, id: string)
    requires Ordered(data)
    ensures Ordered(Except(data, id))
  {
    if data != [] {
      var d, rest := data[0], data[1..];
      ExceptOrdered(rest, id);
      var more := Except(rest, id);
      if d.id == id {
        assert Except(data, id) == more;
      } else {
        assert ([d] + more)[1..] == more;
        forall e | e in more ensures e.created < d.created && e.id != d.id { ExceptMember(rest, id, e); }
      }
    }
  }

  lemma Cons<R>(d: Entry<R>, rest: seq<Entry<R>>, cutoff: int, id: string)
    ensures Unexpired([d] + rest, cutoff) == (if d.created >= cutoff then [d] else []) + Unexpired(rest, cutoff)
    ensures d.created < cutoff ==> Unexpired([d] + rest, cutoff) == Unexpired(rest, cutoff)
    ensures Except([d] + rest, id) == (if d.id == id then [] else [d]) + Except(rest, id)
    ensures d.id == id ==> Except([d] + rest, id) == Except(rest, id)
    ensures Newest([d] + rest) == Insert(d, Newest(rest))
  {
    assert ([d] + rest)[1..] == rest;
  }

  /** A put at a later time brings its entry to the front and removes the id elsewhere. */
  lemma {:induction false} NewestUpsert<R>(data: seq<Entry<R>>, e: Entry<R>, cutoff: int)
    requires Ordered(data) && cutoff <= e.created && forall d :: d in data ==> d.created < e.created
    ensures Newest(Unexpired(Upsert(data, e), cutoff)) == [e] + Except(Unexpired(data, cutoff), e.id)
    decreases data
  {
    hide Unexpired, Except, Newest, Insert;
    if data == [] {
      NewestOne(e, cutoff);
    } else {
      var d, rest := data[0], data[1..];
      assert data == [d] + rest;
      UnexpiredPrefix(rest, cutoff);
      var alive := Unexpired(rest, cutoff);
      Cons(d, rest, cutoff, e.id);
      Cons(d, alive, cutoff, e.id);
      if d.id == e.id {
        Cons(e, rest, cutoff, e.id);
        Cons(e, alive, cutoff, e.id);
        NewestOfOrdered(alive);
        InsertFirst(e, alive);
        NotThere(alive, e.id);
      } else {
        NewestUpsert(rest, e, cutoff);
        Cons(d, Upsert(rest, e), cutoff, e.id);
        Cons(d, Unexpired(Upsert(rest, e), cutoff), cutoff, e.id);
        if Except(alive, e.id) != [] {
          var first := Except(alive, e.id)[0];
          ExceptMember(alive, e.id, first);
          assert first in rest;
        }
        InsertSecond(d, e, Except(alive, e.id));
      }
    }
  }

  lemma NewestOne<R>(e: Entry<R>, cutoff: int)
    requires cutoff <= e.created
    ensures Newest(Unexpired([e], cutoff)) == [e] + Except(Unexpired<R>([], cutoff), e.id)
  {
    assert [e][1..] == [] && [e] + [] == [e];
  }

  lemma InsertFirst<R>(e: Entry<R>, rest: seq<Entry<R>>)
    requires rest == [] || rest[0].created <= e.created
    ensures Insert(e, rest) == [e] + rest
  {}

  lemma InsertSecond<R>(d: Entry<R>, e: Entry<R>, rest: seq<Entry<R>>)
    requires d.created < e.created && (rest == [] || rest[0].created <= d.created)
    ensures Insert(d, [e] + rest) == [e] + ([d] + rest)
  {
    assert ([e] + rest)[1..] == rest;
  }

  /** Every operation keeps the store equal to the newest unexpired entries of the whole history. */
  lemma StepRefines<R>(data: seq<Entry<R>>, history: seq<Entry<R>>, early: int, t: Timed<R>, ttl: nat, maxEntries: nat)
    requires Ordered(history) && data == Take(Unexpired(history, early), maxEntries) && early <= t.now - ttl
    requires t.op.PutOp? ==> forall e :: e in history ==> e.created < t.now
    ensures var later := match t.op
        case PutOp(id, result) => [Entry(id, t.now, result)] + Except(history, id)
        case LookOp => history;
      Ordered(later) && Do(data, t, ttl, maxEntries) == Take(Unexpired(later, t.now - ttl), maxEntries)
  {
    hide Unexpired, Except, Newest, Upsert;
    var late := t.now - ttl;
    UnexpiredPrefix(history, early);
    UnexpiredPrefix(history, late);
    TakeOrdered(Unexpired(history, early), maxEntries);
    TakeOrdered(Unexpired(history, late), maxEntries);
    TakeUnexpired(history, early, late, maxEntries);
    match t.op
    case LookOp => NewestOfOrdered(Unexpired(data, late));
    case PutOp(id, result) => PutRefines(data, history, Entry(id, t.now, result), late, maxEntries);
  }

  lemma PutRefines<R>(data: seq<Entry<R>>, history: seq<Entry<R>>, e: Entry<R>, cutoff: int, n: nat)
    requires Ordered(history) && Ordered(data) && data <= history && cutoff <= e.created
    requires Unexpired(data, cutoff) == Take(Unexpired(history, cutoff), n)
    requires forall h :: h in history ==> h.created < e.created
    ensures Ordered([e] + Except(history, e.id))
    ensures Pruned(Upsert(data, e), cutoff, n) == Take(Unexpired([e] + Except(history, e.id), cutoff), n)
  {
    hide Unexpired, Except, Newest, Upsert;
    var alive := Unexpired(history, cutoff);
    NewestUpsert(data, e, cutoff);
    ExceptOrdered(history, e.id);
    assert ([e] + Except(history, e.id))[1..] == Except(history, e.id);
    forall h | h in Except(history, e.id)
      ensures h.created < e.created && h.id != e.id
    {
      ExceptMember(history, e.id, h);
    }
    Cons(e, Except(history, e.id), cutoff, e.id);
    UnexpiredExcept(history, cutoff, e.id);
    UnexpiredPrefix(history, cutoff);
    if n > 0 {
      TakeExcept(alive, e.id, n);
      TakeCons(e, Except(Take(alive, n), e.id), n);
      TakeCons(e, Except(alive, e.id), n);
    }
  }

  lemma {:induction false} TakeOrdered<R>(data: seq<Entry<R>>, n: nat)
    requires Ordered(data)
    ensures Ordered(Take(data, n)) && Take(data, n) <= data
    decreases data
  {
    if data != [] && n > 0 {
      TakeOrdered(data[1..], n - 1);
      assert data == [data[0]] + data[1..];
      TakeCons(data[0], data[1..], n);
      assert ([data[0]] + Take(data[1..], n - 1))[1..] == Take(data[1..], n - 1);
    }
  }

  lemma {:induction false} TakeExcept<R>(data: seq<Entry<R>>, id: string, n: nat)
    requires Ordered(data) && n > 0
    ensures Take(Except(Take(data, n), id), n - 1) == Take(Except(data, id), n - 1)
    decreases data
  {
    hide Except, Take;
    if data == [] {
      assert Take(data, n) == data by { TakeOrdered(data, n); }
    } else {
      var e, rest := data[0], data[1..];
      assert data == [e] + rest;
      TakeCons(e, rest, n);
      Cons(e, rest, 0, id);
      Cons(e, Take(rest, n - 1), 0, id);
      if e.id == id {
        TakeOrdered(rest, n - 1);
        NotThere(rest, id);
        NotThere(Take(rest, n - 1), id);
        TakeTwice(rest, n - 1);
      } else if n > 1 {
        TakeExcept(rest, id, n - 1);
        TakeCons(e, Except(Take(rest, n - 1), id), n - 1);
        TakeCons(e, Except(rest, id), n - 1);
      } else {
        TakeZero(Except(Take(data, n), id));
        TakeZero(Except(data, id));
      }
    }
  }

  lemma TakeZero<R>(data: seq<Entry<R>>)
    ensures Take(data, 0) == []
  {}

  lemma TakeTwice<R>(data: seq<Entry<R>>, n: nat)
    ensures Take(Take(data, n), n) == Take(data, n)
  {}

  lemma {:induction false} UnexpiredExcept<R>(data: seq<Entry<R>>, cutoff: int, id: string)
    ensures Unexpired(Except(data, id), cutoff) == Except(Unexpired(data, cutoff), id)
  {
    if data != [] {
      var d, rest := data[0], data[1..];
      UnexpiredExcept(rest, cutoff, id);
      assert data == [d] + rest;
      Cons(d, rest, cutoff, id);
      Cons(d, Except(rest, id), cutoff, id);
      Cons(d, Unexpired(rest, cutoff), cutoff, id);
    }
  }

  lemma {:induction false} HistoryTime<R>(ops: seq<Timed<R>>, e: Entry<R>)
    requires e in History(ops)
    ensures exists i :: 0 <= i < |ops| && ops[i].op.PutOp? && ops[i].op.id == e.id && ops[i].now == e.created
  {
    var n := |ops| - 1;
    var before := ops[..n];
    if ops[n].op.PutOp? && e == History(ops)[0] {
      assert ops[n].now == e.created;
    } else {
      if ops[n].op.PutOp? {
        assert e in Except(History(before), ops[n].op.id);
        ExceptMember(History(before), ops[n].op.id, e);
      }
      HistoryTime(before, e);
      var i :| 0 <= i < |before| && before[i].op.PutOp? && before[i].op.id == e.id && before[i].now == e.created;
      assert ops[i] == before[i];
    }
  }

  /** Whatever mix of puts and reads came before, pruning as it goes has lost nothing: the store is exactly the
      newest `maxEntries` unexpired entries of everything ever put, last put per id. */
  lemma {:induction false} CacheRefinesHistory<R>(ops: seq<Timed<R>>, ttl: nat, maxEntries: nat)
    requires Clocked(ops)
    ensures Ordered(History(ops))
    ensures ops != [] ==>
      Run(ops, ttl, maxEntries) == Take(Unexpired(History(ops), ops[|ops| - 1].now - ttl), maxEntries)
  {
    hide Unexpired, Take, Do, Except;
    if ops != [] {
      var n := |ops| - 1;
      var before, t := ops[..n], ops[n];
      CacheRefinesHistory(before, ttl, maxEntries);
      forall e | t.op.PutOp? && e in History(before) ensures e.created < t.now {
        HistoryTime(before, e);
        var i :| 0 <= i < |before| && before[i].op.PutOp? && before[i].now == e.created;
        assert ops[i] == before[i];
      }
      var early := if before == [] then t.now - ttl else before[n - 1].now - ttl;
      if before == [] { EmptyStore<R>(early, maxEntries); }
      assert before != [] ==> before[n - 1] == ops[n - 1];
      StepRefines(Run(before, ttl, maxEntries), History(before), early, t, ttl, maxEntries);
    }
  }

  lemma EmptyStore<R>(cutoff: int, n: nat)
    ensures Take(Unexpired<R>([], cutoff), n) == []
  {}

  lemma {:induction false} FindOrdered<R>(data: seq<Entry<R>>, i: nat)
    requires Ordered(data) && i < |data|
    ensures Find(data, data[i].id) == Some(data[i].result)
  {
    if i > 0 {
      assert data[i] in data[1..] by { assert data[1..][i - 1] == data[i]; }
      FindOrdered(data[1..], i - 1);
    }
  }

  lemma {:induction false} UnexpiredKeeps<R>(data: seq<Entry<R>>, cutoff: int, i: nat)
    requires Ordered(data) && i < |data| && data[i].created >= cutoff
    ensures i < |Unexpired(data, cutoff)|
    decreases data
  {
    if i > 0 {
      assert data[i] in data[1..] by { assert data[1..][i - 1] == data[i]; }
      UnexpiredKeeps(data[1..], cutoff, i - 1);
    }
  }

  /** A result that is not expired and among the newest is what a read at `now` returns. */
  lemma RecentIsAnswered<R>(ops: seq<Timed<R>>, now: int, ttl: nat, maxEntries: nat, i: nat)
    requires Clocked(ops + [Timed(LookOp, now)])
    requires i < |History(ops)| && i < maxEntries && History(ops)[i].created >= now - ttl
    ensures Find(Run(ops + [Timed(LookOp, now)], ttl, maxEntries), History(ops)[i].id) == Some(History(ops)[i].result)
  {
    hide Unexpired, Take, Find, Run, Clocked, Ordered;
    var more, h, cutoff := ops + [Timed(LookOp, now)], History(ops), now - ttl;
    assert more[..|more| - 1] == ops && more[|more| - 1] == Timed(LookOp, now);
    CacheRefinesHistory(more, ttl, maxEntries);
    assert History(more) == h;
    FindRecent(h, cutoff, maxEntries, i);
  }

  lemma FindRecent<R>(data: seq<Entry<R>>, cutoff: int, n: nat, i: nat)
    requires Ordered(data) && i < |data| && i < n && data[i].created >= cutoff
    ensures Find(Take(Unexpired(data, cutoff), n), data[i].id) == Some(data[i].result)
  {
    hide Ordered, Find;
    var alive := Unexpired(data, cutoff);
    UnexpiredKeeps(data, cutoff, i);
    UnexpiredPrefix(data, cutoff);
    TakeOrdered(alive, n);
    assert Take(alive, n)[i] == alive[i] == data[i];
    FindOrdered(Take(alive, n), i);
  }

  lemma {:induction false} PrunedOrdered<R>(data: seq<Entry<R>>, cutoff: int, n: nat)
    requires Ordered(data)
    ensures Pruned(data, cutoff, n) == Take(Unexpired(data, cutoff), n) <= data && Ordered(Pruned(data, cutoff, n))
  {
    hide Unexpired, Newest, Take;
    UnexpiredPrefix(data, cutoff);
    NewestOfOrdered(Unexpired(data, cutoff));
    TakeOrdered(Unexpired(data, cutoff), n);
  }

  // ---------------------------------------------------------------------------
  // One entry among later ones
  // ---------------------------------------------------------------------------

  /** The entry is held, with no more than `newer` entries that are newer. */
  ghost predicate Among<R>(data: seq<Entry<R>>, e: Entry<R>, newer: nat) {
    Ordered(data) && exists i: nat :: i <= newer && i < |data| && data[i] == e
  }

  ghost predicate Until<R>(data: seq<Entry<R>>, now: int) {
    forall e :: e in data ==> e.created <= now
  }

  lemma AmongIsFound<R>(data: seq<Entry<R>>, e: Entry<R>, newer: nat)
    requires Among(data, e, newer)
    ensures Find(data, e.id) == Some(e.result)
  {
    var i: nat :| i <= newer && i < |data| && data[i] == e;
    FindOrdered(data, i);
  }

  lemma AmongPruned<R>(data: seq<Entry<R>>, e: Entry<R>, newer: nat, cutoff: int, n: nat)
    requires Among(data, e, newer) && newer < n && cutoff <= e.created
    ensures Among(Pruned(data, cutoff, n), e, newer)
    ensures forall now :: Until(data, now) ==> Until(Pruned(data, cutoff, n), now)
  {
    hide Pruned, Unexpired, Ordered;
    var i: nat :| i <= newer && i < |data| && data[i] == e;
    PrunedOrdered(data, cutoff, n);
    UnexpiredPrefix(data, cutoff);
    UnexpiredKeeps(data, cutoff, i);
    assert Pruned(data, cutoff, n)[i] == e;
  }

  lemma {:induction false} ExceptIndex<R>(data: seq<Entry<R>>, id: string, i: nat)
    requires i < |data| && data[i].id != id
    ensures exists j: nat :: j <= i && j < |Except(data, id)| && Except(data, id)[j] == data[i]
  {
    if i == 0 {
      assert Except(data, id)[0] == data[0];
    } else {
      var rest := Except(data[1..], id);
      ExceptIndex(data[1..], id, i - 1);
      var j: nat :| j <= i - 1 && j < |rest| && rest[j] == data[1..][i - 1];
      if data[0].id == id { assert Except(data, id) == rest; } else { assert Except(data, id)[j + 1] == rest[j]; }
    }
  }

  /** What a put leaves of ordered data that is older. */
  lemma PutLeaves<R>(data: seq<Entry<R>>, f: Entry<R>, ttl: nat, n: nat)
    requires Ordered(data) && n > 0 && forall d :: d in data ==> d.created < f.created
    ensures var cutoff := f.created - ttl;
      && Pruned(Upsert(data, f), cutoff, n) == [f] + Take(Except(Unexpired(data, cutoff), f.id), n - 1)
      && Ordered(Pruned(Upsert(data, f), cutoff, n))
  {
    hide Unexpired, Newest, Upsert, Except;
    var cutoff := f.created - ttl;
    var alive := Unexpired(data, cutoff);
    var others := Except(alive, f.id);
    NewestUpsert(data, f, cutoff);
    UnexpiredPrefix(data, cutoff);
    ExceptOrdered(alive, f.id);
    forall d | d in others ensures d.created < f.created && d.id != f.id { ExceptMember(alive, f.id, d); }
    assert ([f] + others)[1..] == others;
    TakeOrdered([f] + others, n);
    TakeCons(f, others, n);
  }

  /** An entry stays when another one is put, as long as it is not expired and there is room for both. */
  lemma AmongPut<R>(data: seq<Entry<R>>, e: Entry<R>, newer: nat, f: Entry<R>, ttl: nat, n: nat)
    requires Among(data, e, newer) && newer + 1 < n && f.id != e.id && f.created - ttl <= e.created
    requires forall d :: d in data ==> d.created < f.created
    ensures Among(Pruned(Upsert(data, f), f.created - ttl, n), e, newer + 1)
    ensures Until(Pruned(Upsert(data, f), f.created - ttl, n), f.created)
  {
    hide Pruned, Unexpired, Upsert, Ordered, Except, Take;
    var cutoff := f.created - ttl;
    var i: nat :| i <= newer && i < |data| && data[i] == e;
    var alive := Unexpired(data, cutoff);
    PutLeaves(data, f, ttl, n);
    UnexpiredPrefix(data, cutoff);
    UnexpiredKeeps(data, cutoff, i);
    ExceptIndex(alive, f.id, i);
    var others := Except(alive, f.id);
    var j: nat :| j <= i && j < |others| && others[j] == alive[i];
    TakeAt(others, n - 1, j);
    assert Pruned(Upsert(data, f), cutoff, n)[j + 1] == e;
    PutIsLast(data, f, ttl, n);
  }

  lemma TakeAt<R>(data: seq<Entry<R>>, n: nat, j: nat)
    requires j < |data| && j < n
    ensures j < |Take(data, n)| && Take(data, n)[j] == data[j]
  {}

  lemma PutIsLast<R>(data: seq<Entry<R>>, f: Entry<R>, ttl: nat, n: nat)
    requires Ordered(data) && n > 0 && forall d :: d in data ==> d.created < f.created
    ensures Until(Pruned(Upsert(data, f), f.created - ttl, n), f.created)
  {
    hide Pruned, Unexpired, Upsert, Except;
    var alive := Unexpired(data, f.created - ttl);
    PutLeaves(data, f, ttl, n);
    UnexpiredPrefix(data, f.created - ttl);
    forall d | d in Except(alive, f.id) ensures d.created < f.created { ExceptMember(alive, f.id, d); }
  }

  /** What was just put is the newest. */
  lemma PutIsNewest<R>(data: seq<Entry<R>>, e: Entry<R>, ttl: nat, n: nat)
    requires Ordered(data) && n > 0 && forall d :: d in data ==> d.created < e.created
    ensures Among(Pruned(Upsert(data, e), e.created - ttl, n), e, 0)
    ensures Until(Pruned(Upsert(data, e), e.created - ttl, n), e.created)
  {
    hide Pruned, Unexpired, Upsert, Ordered, Except;
    PutLeaves(data, e, ttl, n);
    PutIsLast(data, e, ttl, n);
    assert Pruned(Upsert(data, e), e.created - ttl, n)[0] == e;
  }

  /** What was put last is found again for as long as it is not expired. */
  lemma PutIsFound<R>(kept: seq<Entry<R>>, e: Entry<R>, ttl: nat, n: nat, again: int)
    requires Ordered(kept) && n > 0 && (forall d :: d in kept ==> d.created < e.created)
    requires e.created <= again <= e.created + ttl
    ensures Find(Pruned(Pruned(Upsert(kept, e), e.created - ttl, n), again - ttl, n), e.id) == Some(e.result)
  {
    hide Pruned, Upsert, Find, Among, Ordered;
    var stored := Pruned(Upsert(kept, e), e.created - ttl, n);
    PutIsNewest(kept, e, ttl, n);
    AmongPruned(stored, e, 0, again - ttl, n);
    AmongIsFound(Pruned(stored, again - ttl, n), e, 0);
  }
}
