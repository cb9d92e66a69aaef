/** The prepared-statement cache of one connection: names are allocated on a miss, published after the request
    that parses them was sent, evicted oldest-first, and used by Bind-only requests from any task. */
module StatementCache {
  import opened Wrappers
  import Decimal

  type Sql = string

  datatype Entry = Entry(name: string, counter: nat)

  type Cache = map<Sql, Entry>

  const CAPACITY := 256
  const TWO64 := 0x1_0000_0000_0000_0000

  function Name(n: nat): string { "s" + Decimal.ToText(n) }

  /** `str::parse::<u64>`. */
  function ParseU64(s: string): Option<nat> {
    var d := if s != "" && s[0] == '+' then s[1..] else s;
    if d != "" && Decimal.AllDigits(d) && Decimal.Value(d) < TWO64 then Some(Decimal.Value(d)) else None
  }

  function CounterOf(name: string, current: nat): nat {
    if name != "" && name[0] == 's' && ParseU64(name[1..]).Some? then ParseU64(name[1..]).value else current
  }

  /** Publishing reads back the counter the name was made from. */
  lemma CounterOfName(n: nat, current: nat)
    requires n < TWO64
    ensures CounterOf(Name(n), current) == n
  {
    assert Name(n)[1..] == Decimal.ToText(n);
    Decimal.ValueOfText(n);
  }

  lemma NameInjective(m: nat, n: nat)
    requires Name(m) == Name(n)
    ensures m == n
  {
    assert Name(m)[1..] == Decimal.ToText(m) && Name(n)[1..] == Decimal.ToText(n);
    Decimal.TextInjective(m, n);
  }

  /** `victim` is an entry with the smallest counter. */
  ghost predicate Oldest(c: Cache, victim: Sql) {
    victim in c && forall k :: k in c ==> c[victim].counter <= c[k].counter
  }

  /** The cache after publishing; `victim` matters only when the cache is full. */
  function Publish(c: Cache, sql: Sql, name: string, current: nat, victim: Sql): Cache {
    if sql in c then c
    else (if |c| >= CAPACITY then c - {victim} else c)[sql := Entry(name, CounterOf(name, current))]
  }

  predicate Evicts(c: Cache, sql: Sql) { sql !in c && |c| >= CAPACITY }

  lemma PublishSize(c: Cache, sql: Sql, name: string, current: nat, victim: Sql)
    requires |c| <= CAPACITY && (Evicts(c, sql) ==> victim in c)
    ensures |Publish(c, sql, name, current, victim)| <= CAPACITY
  {
    if Evicts(c, sql) {
      assert (c - {victim}).Keys == c.Keys - {victim};
      assert |c.Keys - {victim}| == |c.Keys| - 1;
      assert Publish(c, sql, name, current, victim).Keys == c.Keys - {victim} + {sql};
    } else {
      assert Publish(c, sql, name, current, victim).Keys == c.Keys + {sql};
    }
  }

  /** Publishing a statement that is not cached puts it in, under its own name and number; the only entry that may
      leave is the victim, and only from a cache of 256. */
  lemma PublishInserts(c: Cache, sql: Sql, n: nat, current: nat, victim: Sql)
    requires sql !in c && n < TWO64 && victim != sql
    ensures var p := Publish(c, sql, Name(n), current, victim);
            && sql in p && p[sql] == Entry(Name(n), n)
            && (forall q :: q in p ==> q == sql || (q in c && p[q] == c[q]))
            && (forall q :: q in c && (q != victim || |c| < 256) ==> q in p && p[q] == c[q])
            && (|c| >= 256 ==> victim !in p)
  {
    CounterOfName(n, current);
  }

  // ----- the client side -----

  class Statements {
    var cache: Cache
    var counter: nat
    var closes: seq<string>     // statement names in the Close requests queued so far

    constructor ()
      ensures cache == map[] && counter == 0 && closes == []
    {
      cache, counter, closes := map[], 0, [];
    }

    method LookupOrAlloc(sql: Sql) returns (name: string, needsParse: bool)
      modifies this`counter
      ensures needsParse <==> sql !in cache
      ensures !needsParse ==> name == cache[sql].name && counter == old(counter)
      ensures needsParse ==> name == Name(old(counter)) && counter == old(counter) + 1
    {
      if sql in cache {
        return cache[sql].name, false;
      }
      name, needsParse := Name(counter), true;
      counter := counter + 1;
    }

    method FindOldest() returns (victim: Sql)
      requires cache != map[]
      ensures Oldest(cache, victim)
    {
      var rest := cache.Keys;
      assert rest == {} ==> cache == map[];
      victim :| victim in rest;
      rest := rest - {victim};
      while rest != {}
        invariant rest <= cache.Keys && victim in cache
        invariant forall k :: k in cache && k !in rest ==> cache[victim].counter <= cache[k].counter
        decreases |rest|
      {
        var k :| k in rest;
        if cache[k].counter < cache[victim].counter { victim := k; }
        rest := rest - {k};
      }
    }

    /** `room` tells whether the request channel takes the Close; when it does not, the statement stays on the
        server. */
    method CacheStatement(sql: Sql, name: string, room: bool)
      modifies this`cache, this`closes
      ensures sql in cache
      ensures sql in old(cache) ==> cache == old(cache) && closes == old(closes)
      ensures sql !in old(cache) ==>
                cache[sql].name == name && forall n: nat :: n < TWO64 && name == Name(n) ==> cache[sql].counter == n
      ensures sql !in old(cache) && |old(cache)| < 256 ==>
                cache == old(cache)[sql := cache[sql]] && closes == old(closes)
      ensures sql !in old(cache) && |old(cache)| >= 256 ==> exists victim ::
                && Oldest(old(cache), victim)
                && cache == (old(cache) - {victim})[sql := cache[sql]]
                && closes == old(closes) + (if room then [old(cache)[victim].name] else [])
                && cache == Publish(old(cache), sql, name, counter, victim)
      ensures |old(cache)| < 256 ==> cache == Publish(old(cache), sql, name, counter, sql)
      ensures |old(cache)| <= 256 ==> |cache| <= 256
    {
      if sql in cache {
        return;
      }
      forall n: nat | n < TWO64 && name == Name(n) ensures CounterOf(name, counter) == n {
        CounterOfName(n, counter);
      }
      ghost var before := cache;
      ghost var victim := sql;
      if |cache| >= CAPACITY {
        var oldest := FindOldest();
        victim := oldest;
        var close := cache[oldest].name;
        cache := cache - {oldest};
        if room { closes := closes + [close]; }
      }
      cache := cache[sql := Entry(name, CounterOf(name, counter))];
      if |before| <= CAPACITY { PublishSize(before, sql, name, counter, victim); }
    }

    method InvalidateStatement(sql: Sql)
      modifies this`cache
      ensures sql !in cache && cache == old(cache) - {sql}
    {
      cache := cache - {sql};
    }

    method ClearStatementCache()
      modifies this`cache
      ensures cache == map[]
    {
      cache := map[];
    }
  }

  // ----- all tasks, the request queue and the server -----

  /** What a task holds after a lookup. */
  datatype Ticket = Ticket(sql: Sql, name: string, parse: bool)

  datatype Request = Use(t: Ticket) | CloseStatement(name: string) | DiscardAll

  datatype Outcome = Ran(text: Sql) | NoSuchStatement | ParseFailed

  datatype Allocation = Allocation(number: nat, sql: Sql)

  datatype State = State(
    cache: Cache,
    counter: nat,
    held: set<Ticket>,           // looked up, request not yet queued
    sent: set<Ticket>,           // request queued at some time
    queue: seq<Request>,
    prepared: map<string, Sql>,  // on the server
    owner: map<string, Allocation>,   // history: what each name was allocated for
    lost: set<string>,           // history: names whose Parse failed or whose statement the server gave up
    log: seq<(Ticket, Outcome)>) // history: what the server did for each request

  const START := State(map[], 0, {}, {}, [], map[], map[], {}, [])

  datatype Step =
    | Lookup(sql: Sql)
    | LookupToParse(sql: Sql)                           // the retry's lookup finds a name another task has published
    | Submit(t: Ticket)
    | PublishName(t: Ticket, victim: Sql, room: bool)   // also after a request that failed: Pipeline::run
    | Invalidate(sql: Sql)
    | Clear
    | SubmitDiscard
    | ServerTakes(parseFails: bool)
    | ServerForgets(names: set<string>)                 // DEALLOCATE, or statements dropped for any other reason

  ghost predicate Enabled(s: State, a: Step) {
    match a
    case Lookup(_) => s.counter < TWO64
    case LookupToParse(sql) => sql in s.cache
    case Submit(t) => t in s.held
    case PublishName(t, victim, _) => t in s.sent && t.parse && (Evicts(s.cache, t.sql) ==> Oldest(s.cache, victim))
    case ServerTakes(_) => s.queue != []
    case _ => true
  }

  function Serve(s: State, r: Request, parseFails: bool): State {
    match r
    case CloseStatement(name) => s.(prepared := s.prepared - {name}, lost := s.lost + {name})
    case DiscardAll => s.(prepared := map[], lost := s.lost + s.prepared.Keys)
    case Use(t) =>
      if t.parse then
        if t.name in s.prepared then s.(log := s.log + [(t,
            ParseFailed)])     // the name is taken; it stays what it was
        else if parseFails then s.(lost := s.lost + {t.name}, log := s.log + [(t, ParseFailed)])
        else s.(prepared := s.prepared[t.name := t.sql], log := s.log + [(t, Ran(t.sql))])
      else s.(log := s.log + [(t, if t.name in s.prepared then Ran(s.prepared[t.name]) else NoSuchStatement)])
  }

  function Apply(s: State, a: Step): State
    requires Enabled(s, a)
  {
    match a
    case Lookup(sql) =>
      if sql in s.cache then s.(held := s.held + {Ticket(sql, s.cache[sql].name, false)})
      else
        var name := Name(s.counter);
        s.(held := s.held + {Ticket(sql, name, true)}, counter := s.counter + 1,
            owner := s.owner[name := Allocation(s.counter, sql)])
    case LookupToParse(sql) => s.(held := s.held + {Ticket(sql, s.cache[sql].name, true)})
    case Submit(t) => s.(held := s.held - {t}, sent := s.sent + {t}, queue := s.queue + [Use(t)])
    case PublishName(t, victim, room) =>
      s.(cache := Publish(s.cache, t.sql, t.name, s.counter, victim),
         queue := s.queue + if Evicts(s.cache, t.sql) && room then [CloseStatement(s.cache[victim].name)] else [])
    case Invalidate(sql) => s.(cache := s.cache - {sql})
    case Clear => s.(cache := map[])
    case SubmitDiscard => s.(queue := s.queue + [DiscardAll])
    case ServerTakes(parseFails) => Serve(s.(queue := s.queue[1..]), s.queue[0], parseFails)
    case ServerForgets(names) => s.(prepared := s.prepared - names, lost := s.lost + names)
  }

  /** A lookup behind a publication is a hit: it hands out the cached name, allocates nothing and asks for no Parse. */
  lemma PublishedIsFound(s: State, t: Ticket, victim: Sql, room: bool)
    requires Enabled(s, PublishName(t, victim, room)) && s.counter < TWO64 && |s.cache| <= 256
    ensures var p := Apply(s, PublishName(t, victim, room));
            && t.sql in p.cache && p.cache[t.sql].name == (if t.sql in s.cache then s.cache[t.sql].name else t.name)
            && Apply(p, Lookup(t.sql)) == p.(held := p.held + {Ticket(t.sql, p.cache[t.sql].name, false)})
  {
  }

  // ----- invariant -----

  predicate Owns(s: State, name: string, sql: Sql) { name in s.owner && s.owner[name].sql == sql }

  ghost predicate OwnerInv(s: State) {
    && s.counter <= TWO64
    && forall name :: name in s.owner ==> s.owner[name].number < s.counter && name == Name(s.owner[name].number)
  }

  ghost predicate TicketInv(s: State) {
    && (forall t :: t in s.held || t in s.sent ==> Owns(s, t.name, t.sql))
    && (forall i :: 0 <= i < |s.queue| && s.queue[i].Use? ==> Owns(s, s.queue[i].t.name, s.queue[i].t.sql))
    && (forall name :: name in s.prepared ==> Owns(s, name, s.prepared[name]))
  }

  ghost predicate CacheInv(s: State) {
    && |s.cache| <= CAPACITY
    && forall q :: q in s.cache ==> Owns(s, s.cache[q].name, q) && s.cache[q].counter == s.owner[s.cache[q].name].number
  }

  predicate ParseOf(r: Request, name: string) { r.Use? && r.t.parse && r.t.name == name }

  /** The statement is on the server, was lost there, or its Parse is among the first `n` queued requests. */
  ghost predicate Covered(s: State, name: string, n: nat)
    requires n <= |s.queue|
  {
    name in s.prepared || name in s.lost || exists i :: 0 <= i < n && ParseOf(s.queue[i], name)
  }

  ghost predicate OrderInv(s: State) {
    && (forall q :: q in s.cache ==> Covered(s, s.cache[q].name, |s.queue|))
    && (forall t :: t in s.sent || (t in s.held && !t.parse) ==> Covered(s, t.name, |s.queue|))
    && (forall j :: 0 <= j < |s.queue| && s.queue[j].Use? && !s.queue[j].t.parse ==> Covered(s, s.queue[j].t.name, j))
  }

  /** What the server did for each request so far. */
  ghost predicate LogInv(s: State) {
    forall e :: e in s.log ==>
      && (e.1.Ran? ==> e.1.text == e.0.sql)
      && (e.1.NoSuchStatement? ==> !e.0.parse && e.0.name in s.lost)
  }

  ghost predicate Inv(s: State) { OwnerInv(s) && TicketInv(s) && CacheInv(s) && OrderInv(s) && LogInv(s) }

  lemma NewNameIsNew(s: State)
    requires OwnerInv(s)
    ensures Name(s.counter) !in s.owner
  {
    if Name(s.counter) in s.owner { NameInjective(s.counter, s.owner[Name(s.counter)].number); }
  }

  lemma OwnerLookup(s: State, sql: Sql)
    requires OwnerInv(s) && Enabled(s, Lookup(sql))
    ensures OwnerInv(Apply(s, Lookup(sql)))
  {
    var s' := Apply(s, Lookup(sql));
    forall name | name in s'.owner ensures s'.owner[name].number < s'.counter && name == Name(s'.owner[name].number) {
      if name != Name(s.counter) { assert name in s.owner; }
    }
  }

  /** An allocation is never changed. */
  lemma OwnerGrows(s: State, a: Step)
    requires OwnerInv(s) && Enabled(s, a)
    ensures forall name :: name in s.owner ==> name in Apply(s, a).owner && Apply(s, a).owner[name] == s.owner[name]
  {
    if a.Lookup? { NewNameIsNew(s); } else { assert Apply(s, a).owner == s.owner; }
  }

  lemma OwnerStep(s: State, a: Step)
    requires OwnerInv(s) && Enabled(s, a)
    ensures OwnerInv(Apply(s, a))
  {
    if a.Lookup? {
      OwnerLookup(s, a.sql);
    } else {
      var s' := Apply(s, a);
      assert s'.owner == s.owner && s'.counter == s.counter;
    }
  }

  lemma ServeTickets(s: State, r: Request, parseFails: bool)
    requires TicketInv(s) && (r.Use? ==> Owns(s, r.t.name, r.t.sql))
    ensures TicketInv(Serve(s, r, parseFails))
  {
  }

  lemma LookupTicket(s: State, sql: Sql)
    requires OwnerInv(s) && TicketInv(s) && CacheInv(s) && Enabled(s, Lookup(sql))
    ensures TicketInv(Apply(s, Lookup(sql)))
  {
    NewNameIsNew(s);
  }

  lemma TicketStep(s: State, a: Step)
    requires OwnerInv(s) && TicketInv(s) && CacheInv(s) && Enabled(s, a)
    ensures TicketInv(Apply(s, a))
  {
    if a.Lookup? {
      LookupTicket(s, a.sql);
    } else if a.ServerTakes? {
      assert TicketInv(s.(queue := s.queue[1..]));
      ServeTickets(s.(queue := s.queue[1..]), s.queue[0], a.parseFails);
    } else if a.LookupToParse? || a.Submit? {
      TakenTickets(s, a);
    } else {
      OtherTickets(s, a);
    }
  }

  lemma TakenTickets(s: State, a: Step)
    requires TicketInv(s) && CacheInv(s) && Enabled(s, a) && (a.LookupToParse? || a.Submit?)
    ensures TicketInv(Apply(s, a))
  {
  }

  /** No new ticket, and nothing new on the server. */
  lemma SameTickets(s: State, s': State)
    requires TicketInv(s) && s'.owner == s.owner && s'.held == s.held && s'.sent == s.sent
    requires s.queue <= s'.queue && forall i :: |s.queue| <= i < |s'.queue| ==> !s'.queue[i].Use?
    requires forall name :: name in s'.prepared ==> name in s.prepared && s'.prepared[name] == s.prepared[name]
    ensures TicketInv(s')
  {
  }

  lemma OtherTickets(s: State, a: Step)
    requires TicketInv(s) && Enabled(s, a)
    requires a.PublishName? || a.Invalidate? || a.Clear? || a.SubmitDiscard? || a.ServerForgets?
    ensures TicketInv(Apply(s, a))
  {
    hide TicketInv;
    SameTickets(s, Apply(s, a));
  }

  lemma PublishedEntry(s: State, t: Ticket)
    requires OwnerInv(s) && Owns(s, t.name, t.sql)
    ensures CounterOf(t.name, s.counter) == s.owner[t.name].number
  {
    CounterOfName(s.owner[t.name].number, s.counter);
  }

  lemma SmallerCache(s: State, s': State)
    requires CacheInv(s) && |s'.cache| <= |s.cache|
    requires forall name :: name in s.owner ==> name in s'.owner && s'.owner[name] == s.owner[name]
    requires forall q :: q in s'.cache ==> q in s.cache && s'.cache[q] == s.cache[q]
    ensures CacheInv(s')
  {
  }

  lemma PublishCache(s: State, a: Step)
    requires OwnerInv(s) && TicketInv(s) && CacheInv(s) && Enabled(s, a) && a.PublishName?
    ensures CacheInv(Apply(s, a))
  {
    PublishSize(s.cache, a.t.sql, a.t.name, s.counter, a.victim);
    PublishedEntry(s, a.t);
  }

  lemma ShrinkingCache(s: State, a: Step)
    requires Enabled(s, a) && !a.PublishName?
    ensures var c := Apply(s, a).cache; |c| <= |s.cache| && forall q :: q in c ==> q in s.cache && c[q] == s.cache[q]
  {
    match a {
      case Invalidate(sql) => assert (s.cache - {sql}).Keys == s.cache.Keys - {sql};
      case ServerTakes(_) => ServeKeepsClient(s.(queue := s.queue[1..]), s.queue[0], a.parseFails);
      case _ =>
    }
  }

  lemma ServeKeepsClient(s: State, r: Request, parseFails: bool)
    ensures var s' := Serve(s, r, parseFails); s'.cache == s.cache && s'.owner == s.owner && s'.counter == s.counter
  {
  }

  lemma CacheStep(s: State, a: Step)
    requires OwnerInv(s) && TicketInv(s) && CacheInv(s) && Enabled(s, a)
    ensures CacheInv(Apply(s, a))
  {
    if a.PublishName? {
      PublishCache(s, a);
    } else {
      OwnerGrows(s, a);
      ShrinkingCache(s, a);
      SmallerCache(s, Apply(s, a));
    }
  }

  /** Requests queued later, and statements lost, never uncover a name. */
  lemma CoveredGrows(s: State, s': State, name: string, n: nat, n': nat)
    requires n <= |s.queue| && n <= n' <= |s'.queue| && Covered(s, name, n)
    requires s.queue[..n] == s'.queue[..n]
    requires s.lost <= s'.lost && forall x :: x in s.prepared ==> x in s'.prepared || x in s'.lost
    ensures Covered(s', name, n')
  {
    if name !in s.prepared && name !in s.lost {
      var i :| 0 <= i < n && ParseOf(s.queue[i], name);
      assert s'.queue[i] == s'.queue[..n][i] == s.queue[..n][i];
    }
  }

  lemma QueueGrowsOrder(s: State, s': State)
    requires OrderInv(s) && s.queue <= s'.queue
    requires s.lost <= s'.lost && forall x :: x in s.prepared ==> x in s'.prepared || x in s'.lost
    requires forall q :: q in s'.cache ==> Covered(s, s'.cache[q].name, |s.queue|)
    requires forall t :: t in s'.sent || (t in s'.held && !t.parse) ==> Covered(s', t.name, |s'.queue|)
    requires forall j :: |s.queue| <= j < |s'.queue| && s'.queue[j].Use? && !s'.queue[j].t.parse
                         ==> Covered(s, s'.queue[j].t.name, |s.queue|)
    ensures OrderInv(s')
  {
    forall q | q in s'.cache ensures Covered(s', s'.cache[q].name, |s'.queue|) {
      CoveredGrows(s, s', s'.cache[q].name, |s.queue|, |s'.queue|);
    }
    forall j | 0 <= j < |s'.queue| && s'.queue[j].Use? && !s'.queue[j].t.parse
      ensures Covered(s', s'.queue[j].t.name, j)
    {
      if j < |s.queue| {
        assert s'.queue[j] == s.queue[j];
        CoveredGrows(s, s', s.queue[j].t.name, j, j);
      } else {
        CoveredGrows(s, s', s'.queue[j].t.name, |s.queue|, j);
      }
    }
  }

  lemma OrderStep(s: State, a: Step)
    requires Inv(s) && Enabled(s, a) && !a.ServerTakes?
    ensures OrderInv(Apply(s, a))
  {
    var s' := Apply(s, a);
    forall t | t in s'.sent || (t in s'.held && !t.parse) ensures Covered(s', t.name, |s'.queue|) {
      if a == Submit(t) && t.parse {
        assert ParseOf(s'.queue[|s.queue|], t.name);
      } else if a.Lookup? && t !in s.sent && t !in s.held {
        CoveredGrows(s, s', t.name, |s.queue|, |s'.queue|);
      } else {
        CoveredGrows(s, s', t.name, |s.queue|, |s'.queue|);
      }
    }
    QueueGrowsOrder(s, s');
  }

  /** The head of the queue is dealt with: its own Parse is now on the server or lost. */
  lemma HeadServed(s: State, parseFails: bool, name: string, n: nat)
    requires s.queue != [] && 0 < n <= |s.queue| && Covered(s, name, n)
    ensures var s' := Apply(s, ServerTakes(parseFails)); |s'.queue| == |s.queue| - 1 && Covered(s', name, n - 1)
  {
    var s' := Apply(s, ServerTakes(parseFails));
    if name !in s.prepared && name !in s.lost {
      var i :| 0 <= i < n && ParseOf(s.queue[i], name);
      if i > 0 { assert ParseOf(s'.queue[i - 1], name); }
    }
  }

  lemma QueueServed(s: State, parseFails: bool, j: nat)
    requires OrderInv(s) && s.queue != []
    requires var q := Apply(s, ServerTakes(parseFails)).queue; j < |q| && q[j].Use? && !q[j].t.parse
    ensures var s' := Apply(s, ServerTakes(parseFails)); Covered(s', s'.queue[j].t.name, j)
  {
    assert Apply(s, ServerTakes(parseFails)).queue == s.queue[1..];
    HeadServed(s, parseFails, s.queue[j + 1].t.name, j + 1);
  }

  lemma ServeKeepsTickets(s: State, parseFails: bool)
    requires s.queue != []
    ensures var s' := Apply(s, ServerTakes(parseFails));
            && s'.cache == s.cache && s'.held == s.held && s'.sent == s.sent && s'.queue == s.queue[1..]
  {
  }

  lemma OrderServed(s: State, parseFails: bool)
    requires OrderInv(s) && s.queue != []
    ensures OrderInv(Apply(s, ServerTakes(parseFails)))
  {
    hide Apply, Covered;
    var s' := Apply(s, ServerTakes(parseFails));
    var n := |s.queue|;
    ServeKeepsTickets(s, parseFails);
    forall q | q in s'.cache ensures Covered(s', s'.cache[q].name, |s'.queue|) {
      HeadServed(s, parseFails, s.cache[q].name, n);
    }
    forall t | t in s'.sent || (t in s'.held && !t.parse) ensures Covered(s', t.name, |s'.queue|) {
      HeadServed(s, parseFails, t.name, n);
    }
    forall j | 0 <= j < |s'.queue| && s'.queue[j].Use? && !s'.queue[j].t.parse
      ensures Covered(s', s'.queue[j].t.name, j)
    {
      QueueServed(s, parseFails, j);
    }
  }

  lemma LogStep(s: State, a: Step)
    requires Inv(s) && Enabled(s, a)
    ensures LogInv(Apply(s, a))
  {
    if a.ServerTakes? && s.queue[0].Use? {
      var t := s.queue[0].t;
      if !t.parse { assert Covered(s, t.name, 0); }
    }
  }

  lemma ApplyInv(s: State, a: Step)
    requires Inv(s) && Enabled(s, a)
    ensures Inv(Apply(s, a))
  {
    OwnerStep(s, a);
    TicketStep(s, a);
    CacheStep(s, a);
    if a.ServerTakes? { OrderServed(s, a.parseFails); } else { OrderStep(s, a); }
    LogStep(s, a);
  }

  // ----- runs -----

  ghost predicate IsRun(trace: seq<State>, steps: seq<Step>) {
    && |trace| == |steps| + 1 && trace[0] == START
    && forall n :: 0 <= n < |steps| ==> Enabled(trace[n], steps[n]) && trace[n + 1] == Apply(trace[n], steps[n])
  }

  lemma {:induction false} RunInv(trace: seq<State>, steps: seq<Step>, n: nat)
    requires IsRun(trace, steps) && n < |trace|
    ensures Inv(trace[n])
  {
    if n > 0 {
      RunInv(trace, steps, n - 1);
      ApplyInv(trace[n - 1], steps[n - 1]);
    }
  }

  /** Main result on names: a cached name was allocated for exactly its own text, two entries never share a name,
      and there are at most 256 of them. */
  lemma CachedNamesAreOwn(trace: seq<State>, steps: seq<Step>, n: nat)
    requires IsRun(trace, steps) && n < |trace|
    ensures var s := trace[n];
            && |s.cache| <= 256
            && (forall q :: q in s.cache ==> Owns(s, s.cache[q].name, q))
            && (forall p, q :: p in s.cache && q in s.cache && p != q ==> s.cache[p].name != s.cache[q].name)
            && (forall q :: q in s.cache && s.cache[q].name in s.prepared ==> s.prepared[s.cache[q].name] == q)
  {
    RunInv(trace, steps, n);
  }

  /** Main result on execution: whatever the server ran for a request is the text that was asked for, never another
      statement, whether or not the request carried its own Parse. */
  lemma RunsItsOwnText(trace: seq<State>, steps: seq<Step>, n: nat, k: nat)
    requires IsRun(trace, steps) && n < |trace| && k < |trace[n].log|
    ensures var (t, outcome) := trace[n].log[k]; outcome.Ran? ==> outcome.text == t.sql
  {
    RunInv(trace, steps, n);
    assert trace[n].log[k] in trace[n].log;
  }

  /** A Bind-only request never overtakes the Parse of its statement: when the server does not know the name, that
      Parse had failed or the statement had been closed, discarded or dropped before. */
  lemma UnknownOnlyAfterLoss(trace: seq<State>, steps: seq<Step>, n: nat, k: nat)
    requires IsRun(trace, steps) && n < |trace| && k < |trace[n].log|
    ensures var (t, outcome) := trace[n].log[k]; outcome.NoSuchStatement? ==> !t.parse && t.name in trace[n].lost
  {
    RunInv(trace, steps, n);
    assert trace[n].log[k] in trace[n].log;
  }
}
