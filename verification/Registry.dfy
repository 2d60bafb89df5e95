/** Method and event registration, the lookups dispatch uses, and the schema announced to the parent. */
module Registry {
  import opened Results
  import opened WireFormat
  import opened Context

  const FIRST_RESERVED_ID: u16 := AUTH_METHOD_ID

  /** One call of `register`; `H` is whatever handlers are. */
  datatype Registration<H> = Registration(name: string, responseType: ResponseType, handler: H)

  datatype MethodEntry<H> = MethodEntry(handler: H, responseType: ResponseType, id: u16)

  datatype Tables<H> = Tables(methods: map<string, MethodEntry<H>>, idToName: map<u16, string>, next: u16)

  /** Counters are 16 bits wide and wrap. */
  function NextId(id: u16): u16 {
    (id + 1) % 0x1_0000
  }

  function Registered<H>(t: Tables<H>, r: Registration<H>): Tables<H> {
    Tables(t.methods[r.name := MethodEntry(r.handler, r.responseType, t.next)],
           t.idToName[t.next := r.name],
           NextId(t.next))
  }

  /** The tables after a history of registrations. */
  function After<H>(rs: seq<Registration<H>>): Tables<H> {
    if rs == [] then Tables(map[], map[], 1)
    else Registered(After(rs[..|rs| - 1]), rs[|rs| - 1])
  }

  function EventsAfter(names: seq<string>): (map<string, u16>, u16) {
    if names == [] then (map[], 1)
    else
      var (events, next) := EventsAfter(names[..|names| - 1]);
      (events[names[|names| - 1] := next], NextId(next))
  }

  function EntryById<H>(t: Tables<H>, id: u16): Option<MethodEntry<H>> {
    if id in t.idToName && t.idToName[id] in t.methods then Some(t.methods[t.idToName[id]]) else None
  }

  /** `get_response_type_by_id`, as a map over every id it answers for. */
  function TypesById<H>(t: Tables<H>): map<u16, ResponseType> {
    map id | id in t.idToName && t.idToName[id] in t.methods :: t.methods[t.idToName[id]].responseType
  }

  datatype MethodSchema = MethodSchema(id: u16, response: ResponseType)

  datatype InitSchema = InitSchema(methods: map<string, MethodSchema>, events: map<string, u16>)

  class HandlerRegistry<H> {
    var methods: map<string, MethodEntry<H>>
    var events: map<string, u16>
    var nextMethodId: u16
    var nextEventId: u16
    var idToName: map<u16, string>

    ghost function MethodTables(): Tables<H>
      reads this
    {
      Tables(methods, idToName, nextMethodId)
    }

    constructor ()
      ensures MethodTables() == After([])
      ensures (events, nextEventId) == EventsAfter([])
    {
      methods, events, idToName := map[], map[], map[];
      nextMethodId, nextEventId := 1, 1;
    }

    method Register(name: string, responseType: ResponseType, handler: H, ghost history: seq<Registration<H>>)
      requires MethodTables() == After(history)
      modifies `methods, `idToName, `nextMethodId
      ensures MethodTables() == After(history + [Registration(name, responseType, handler)])
    {
      var id := nextMethodId;
      nextMethodId := NextId(nextMethodId);
      methods := methods[name := MethodEntry(handler, responseType, id)];
      idToName := idToName[id := name];
      ghost var r := Registration(name, responseType, handler);
      assert (history + [r])[..|history|] == history;
    }

    method RegisterEvent(name: string, ghost history: seq<string>)
      requires (events, nextEventId) == EventsAfter(history)
      modifies `events, `nextEventId
      ensures (events, nextEventId) == EventsAfter(history + [name])
    {
      var id := nextEventId;
      nextEventId := NextId(nextEventId);
      events := events[name := id];
      assert (history + [name])[..|history|] == history;
    }

    method GetById(id: u16) returns (entry: Option<MethodEntry<H>>)
      ensures entry == EntryById(MethodTables(), id)
    {
      if id !in idToName {
        return None;
      }
      var name := idToName[id];
      if name !in methods {
        return None;
      }
      return Some(methods[name]);
    }

    /** Announces every registered name once, with the id and type on record, in whatever order the maps iterate. */
    method BuildSchema() returns (schema: InitSchema)
      ensures schema.methods.Keys == methods.Keys
      ensures forall n <- methods :: schema.methods[n] == MethodSchema(methods[n].id, methods[n].responseType)
      ensures schema.events == events
    {
      var announced: map<string, MethodSchema> := map[];
      var left := methods.Keys;
      while left != {}
        invariant left <= methods.Keys && announced.Keys == methods.Keys - left
        invariant forall n <- announced :: announced[n] == MethodSchema(methods[n].id, methods[n].responseType)
        decreases left
      {
        var name :| name in left;
        announced := announced[name := MethodSchema(methods[name].id, methods[name].responseType)];
        left := left - {name};
      }
      var announcedEvents: map<string, u16> := map[];
      left := events.Keys;
      while left != {}
        invariant left <= events.Keys && announcedEvents.Keys == events.Keys - left
        invariant forall n <- announcedEvents :: announcedEvents[n] == events[n]
        decreases left
      {
        var name :| name in left;
        announcedEvents := announcedEvents[name := events[name]];
        left := left - {name};
      }
      return InitSchema(announced, announcedEvents);
    }
  }

  /** The `i`th registration is the last one under its name. */
  ghost predicate IsLast<H>(rs: seq<Registration<H>>, i: nat) {
    i < |rs| && forall j :: i < j < |rs| ==> rs[j].name != rs[i].name
  }

  /** `e` records the last registration under `n`. */
  ghost predicate RecordsLast<H>(rs: seq<Registration<H>>, n: string, e: MethodEntry<H>) {
    && 1 <= e.id <= |rs| && IsLast(rs, e.id - 1)
    && rs[e.id - 1] == Registration(n, e.responseType, e.handler)
  }

  /**
   * Names, ids and entries agree after any history within the id range, repeated names included: the
   * ids in use are exactly 1 up to the counter, and each name's entry is its last registration's.
   */
  lemma {:induction false} TablesAgree<H>(rs: seq<Registration<H>>)
    requires |rs| < FIRST_RESERVED_ID
    ensures var t := After(rs);
      && t.next == |rs| + 1
      && (forall id :: id in t.idToName <==> 1 <= id <= |rs|)
      && (forall id <- t.idToName :: t.idToName[id] == rs[id - 1].name)
      && (forall id <- t.idToName :: t.idToName[id] in t.methods)
      && (forall n <- t.methods :: RecordsLast(rs, n, t.methods[n]))
  {
    if rs != [] {
      var before, r := rs[..|rs| - 1], rs[|rs| - 1];
      TablesAgree(before);
      var t, u := After(rs), After(before);
      forall n | n in t.methods
        ensures RecordsLast(rs, n, t.methods[n])
      {
        if n != r.name {
          KeepsLast(before, r, n, u.methods[n]);
          assert rs == before + [r];
        }
      }
    }
  }

  lemma KeepsLast<H>(before: seq<Registration<H>>, r: Registration<H>, n: string, e: MethodEntry<H>)
    requires RecordsLast(before, n, e) && r.name != n
    ensures RecordsLast(before + [r], n, e)
  {
  }

  /** Each name's id is the largest id that maps to it, and no two names share one or get a reserved one. */
  lemma SchemaIds<H>(rs: seq<Registration<H>>)
    requires |rs| < FIRST_RESERVED_ID
    ensures var t := After(rs);
      && (forall n <- t.methods :: forall id <- t.idToName :: t.idToName[id] == n ==> id <= t.methods[n].id)
      && LawfulIds(t)
  {
    hide After;
    TablesAgree(rs);
    var t := After(rs);
    forall n, id | n in t.methods && id in t.idToName && t.idToName[id] == n
      ensures id <= t.methods[n].id
    {
      assert RecordsLast(rs, n, t.methods[n]);
      assert rs[id - 1].name == n;
    }
    forall n | n in t.methods
      ensures 1 <= t.methods[n].id < FIRST_RESERVED_ID && t.idToName[t.methods[n].id] == n
    {
      assert RecordsLast(rs, n, t.methods[n]);
    }
  }

  /** Dispatching by any id ever assigned reaches the last handler and type registered under that id's name. */
  lemma LookupReachesLast<H>(rs: seq<Registration<H>>, id: u16, last: nat)
    requires |rs| < FIRST_RESERVED_ID && 1 <= id <= |rs|
    requires IsLast(rs, last) && rs[last].name == rs[id - 1].name
    ensures EntryById(After(rs), id) == Some(MethodEntry(rs[last].handler, rs[last].responseType, last + 1))
  {
    hide After;
    TablesAgree(rs);
    var t, n := After(rs), rs[id - 1].name;
    assert t.idToName[id] == n;
    assert RecordsLast(rs, n, t.methods[n]);
    assert t.methods[n].id - 1 == last;
  }

  /** A lookup answers for exactly the assigned ids, those that the types are on record for, and with that type. */
  lemma LookupAnswersIff<H>(rs: seq<Registration<H>>, id: u16)
    requires |rs| < FIRST_RESERVED_ID
    ensures EntryById(After(rs), id).Some? <==> 1 <= id <= |rs|
    ensures EntryById(After(rs), id).Some? <==> id in TypesById(After(rs))
    ensures EntryById(After(rs), id).Some? ==>
      EntryById(After(rs), id).value.responseType == TypesById(After(rs))[id]
  {
    hide After;
    TablesAgree(rs);
  }

  /** The type by id exists for exactly the assigned ids, and is that of the last registration under the id's name. */
  lemma TypesReachLast<H>(rs: seq<Registration<H>>, id: u16)
    requires |rs| < FIRST_RESERVED_ID
    ensures var types := TypesById(After(rs));
      && (id in types <==> 1 <= id <= |rs|)
      && (id in types ==>
            exists i :: 0 <= i < |rs| && IsLast(rs, i) && rs[i].name == rs[id - 1].name
              && types[id] == rs[i].responseType)
  {
    hide After;
    TablesAgree(rs);
    var t := After(rs);
    if 1 <= id <= |rs| {
      var n := t.idToName[id];
      assert RecordsLast(rs, n, t.methods[n]);
    }
  }

  /** The last registration under the name that once got `id` is a stream method. */
  ghost predicate LastIsStream<H>(rs: seq<Registration<H>>, id: u16) {
    && 1 <= id <= |rs|
    && exists i :: 0 <= i < |rs| && IsLast(rs, i) && rs[i].name == rs[id - 1].name && rs[i].responseType.Stream?
  }

  /** The announced ids are pairwise distinct and never reserved. */
  ghost predicate LawfulIds<H>(t: Tables<H>) {
    && (forall a, b :: a in t.methods && b in t.methods && t.methods[a].id == t.methods[b].id ==> a == b)
    && (forall n <- t.methods :: 1 <= t.methods[n].id < FIRST_RESERVED_ID)
  }

  /** Announced ids stay lawful throughout a history exactly when it fits the id range; no code checks that it does. */
  lemma LawfulThroughoutIff<H>(rs: seq<Registration<H>>)
    ensures (forall k :: 0 <= k <= |rs| ==> LawfulIds(After(rs[..k]))) <==> |rs| < FIRST_RESERVED_ID
  {
    if |rs| < FIRST_RESERVED_ID {
      forall k | 0 <= k <= |rs|
        ensures LawfulIds(After(rs[..k]))
      {
        SchemaIds(rs[..k]);
      }
    } else {
      LawfulIff(rs[..FIRST_RESERVED_ID]);
    }
  }

  /**
   * What the schema announces is lawful exactly when the history fits the id range, as long as the
   * 16-bit counter has not wrapped: from the registration that gets the AUTH id on, the last name has
   * a reserved id.
   */
  lemma LawfulIff<H>(rs: seq<Registration<H>>)
    requires |rs| <= 0xFFFF
    ensures LawfulIds(After(rs)) <==> |rs| < FIRST_RESERVED_ID
  {
    hide After;
    if |rs| < FIRST_RESERVED_ID {
      SchemaIds(rs);
    } else {
      LastEntry(rs);
    }
  }

  /** The last registration's entry has the registration count for an id, modulo the counter's width. */
  lemma LastEntry<H>(rs: seq<Registration<H>>)
    requires rs != []
    ensures var n := rs[|rs| - 1].name;
      n in After(rs).methods && After(rs).methods[n].id == |rs| % 0x1_0000
  {
    NextIs(rs[..|rs| - 1]);
  }

  lemma {:induction false} NextIs<H>(rs: seq<Registration<H>>)
    ensures After(rs).next == (|rs| + 1) % 0x1_0000
  {
    hide NextId;
    if rs != [] {
      NextIs(rs[..|rs| - 1]);
      NextWraps(|rs|);
    }
  }

  lemma NextWraps(n: nat)
    ensures NextId(n % 0x1_0000) == (n + 1) % 0x1_0000
  {
  }

  /** After a wrap the announcement can be lawful again: it is for one name registered 65537 times. */
  lemma WrapsToLawful<H>(rs: seq<Registration<H>>, r: Registration<H>)
    requires |rs| == 0x1_0001 && forall i :: 0 <= i < |rs| ==> rs[i] == r
    ensures LawfulIds(After(rs))
  {
    hide After;
    OneName(rs, r);
    LastEntry(rs);
  }

  lemma {:induction false} OneName<H>(rs: seq<Registration<H>>, r: Registration<H>)
    requires forall i :: 0 <= i < |rs| ==> rs[i] == r
    ensures After(rs).methods.Keys <= {r.name}
  {
    if rs != [] {
      OneName(rs[..|rs| - 1], r);
    }
  }

  /** Event ids are assigned the same way, from their own counter. */
  lemma {:induction false} EventIds(names: seq<string>)
    requires |names| < FIRST_RESERVED_ID
    ensures var (events, next) := EventsAfter(names);
      && next == |names| + 1
      && (forall n :: n in events <==> n in names)
      && (forall n <- events :: 1 <= events[n] <= |names| && names[events[n] - 1] == n)
      && (forall n <- events, j :: events[n] <= j < |names| ==> names[j] != n)
  {
    if names != [] {
      var before := names[..|names| - 1];
      EventIds(before);
      assert names == before + [names[|names| - 1]];
    }
  }
}
