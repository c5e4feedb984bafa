/** The device table of domoserver.c (table etat_appareils) and the
    operations on it: the detail lookup with its fallbacks, the ON/OFF
    transition rule of majEtat with its lazy insertion, the full reset and the
    idempotent catalog seeding. The SQLite table is a map from the device name
    (the UNIQUE column appareil) to the rest of its row. */
module Registry {
  import opened CStrings

  const DEFAULT_SIM_IP := "192.168.56.1"
  const DEFAULT_SIM_PORT := 60396
  const DEFAULT_INPUT := "00000000"
  /** The column default of `port` in the table schema. */
  const SCHEMA_PORT := 49644

  /** One row. The text columns may be NULL; `changed` is the
      dernier_changement time stamp. */
  datatype Row = Row(ip: Option<string>, input: Option<string>, etat: Option<string>,
                     port: int, onCount: nat, offCount: nat, changed: nat)

  type Table = map<string, Row>

  /** What getAppareilDetails hands back. */
  datatype Details = Details(ip: string, input: string, port: int, etat: string)

  /** One catalog tuple: name, IP, input code, initial state, port. */
  datatype Entry = Entry(name: string, ip: string, input: string, etat: string, port: int)

  function OrElse(o: Option<string>, default: string): string {
    if o.Some? then o.value else default
  }

  /** getAppareilDetails: the row's columns, with a fallback for a missing
      row and for each NULL text column. */
  function DetailsOf(t: Table, nom: string): Details {
    if nom !in t then Details(DEFAULT_SIM_IP, DEFAULT_INPUT, DEFAULT_SIM_PORT, "OFF")
    else
      var r := t[nom];
      Details(OrElse(r.ip, DEFAULT_SIM_IP), OrElse(r.input, DEFAULT_INPUT), r.port, OrElse(r.etat, "OFF"))
  }

  /** getEtat: the state part of the details. */
  function StateOf(t: Table, nom: string): string {
    DetailsOf(t, nom).etat
  }

  /** The row the lazy INSERT OR IGNORE of majEtat creates: default address
      and input code, the schema's port, counters at their default 0. */
  function ActivationRow(etat: string, now: nat): Row {
    Row(Some(DEFAULT_SIM_IP), Some(DEFAULT_INPUT), Some(etat), SCHEMA_PORT, 0, 0, now)
  }

  /** majEtat(nom, etat) at time now. */
  function Transition(t: Table, nom: string, etat: string, now: nat): Table {
    var actuel := StateOf(t, nom);
    var t1 := if actuel == "OFF" && etat != "OFF" && nom !in t then t[nom := ActivationRow(etat, now)] else t;
    if nom !in t1 then t1
    else
      var r := t1[nom].(etat := Some(etat), changed := now);
      if etat == "ON" && actuel != "ON" then t1[nom := r.(onCount := r.onCount + 1)]
      else if etat == "OFF" && actuel != "OFF" then t1[nom := r.(offCount := r.offCount + 1)]
      else t1[nom := r]
  }

  /** No row disappears and no counter goes down. */
  ghost predicate CountersGrow(t: Table, t': Table) {
    forall n :: n in t ==> n in t' && t[n].onCount <= t'[n].onCount && t[n].offCount <= t'[n].offCount
  }

  /** The row the seeding inserts for a catalog tuple. */
  function SeedRow(e: Entry, now: nat): Row {
    Row(Some(e.ip), Some(e.input), Some(e.etat), e.port, 0, 0, now)
  }

  function Names(catalog: seq<Entry>): set<string> {
    set e | e in catalog :: e.name
  }

  /** insert_initial_devices: INSERT OR IGNORE of every tuple, in order. */
  function Seeded(t: Table, catalog: seq<Entry>, now: nat): Table
    decreases |catalog|
  {
    if catalog == [] then t
    else
      var e := catalog[0];
      Seeded(if e.name in t then t else t[e.name := SeedRow(e, now)], catalog[1..], now)
  }

  class DeviceTable {
    var rows: Table

    /** The table as the database file holds it when the server starts. */
    constructor (stored: Table)
      ensures rows == stored
    {
      rows := stored;
    }

    /** getAppareilDetails: write the fallbacks, then overwrite them from
        the row if there is one. */
    method GetDetails(nom: string) returns (d: Details)
      ensures d == DetailsOf(rows, nom)
      ensures nom !in rows ==> d == Details(DEFAULT_SIM_IP, DEFAULT_INPUT, DEFAULT_SIM_PORT, "OFF")
      ensures nom in rows ==> d.port == rows[nom].port
      ensures nom in rows ==> d.ip == (if rows[nom].ip.Some? then rows[nom].ip.value else DEFAULT_SIM_IP)
      ensures nom in rows ==> d.input == (if rows[nom].input.Some? then rows[nom].input.value else DEFAULT_INPUT)
      ensures nom in rows ==> d.etat == (if rows[nom].etat.Some? then rows[nom].etat.value else "OFF")
    {
      d := Details(DEFAULT_SIM_IP, DEFAULT_INPUT, DEFAULT_SIM_PORT, "OFF");
      if nom in rows {
        var r := rows[nom];
        if r.ip.Some? {
          d := d.(ip := r.ip.value);
        }
        if r.input.Some? {
          d := d.(input := r.input.value);
        }
        d := d.(port := r.port);
        if r.etat.Some? {
          d := d.(etat := r.etat.value);
        }
      }
    }

    /** getEtat. */
    method GetEtat(nom: string) returns (etat: string)
      ensures etat == StateOf(rows, nom)
      ensures nom !in rows ==> etat == "OFF"
      ensures nom in rows && rows[nom].etat.Some? ==> etat == rows[nom].etat.value
    {
      var d := GetDetails(nom);
      etat := d.etat;
    }

    /** majEtat: read the current state; if the device is being switched
        away from OFF, run the INSERT OR IGNORE built as SQL text (which
        inserts nothing when the name or the state holds an apostrophe);
        then store the new state and bump at most one counter. */
    method MajEtat(nom: string, etat: string, now: nat)
      modifies this
      ensures rows == TransitionAsWritten(old(rows), nom, etat, now)
      ensures SqlSafe(nom) && SqlSafe(etat) ==> rows == Transition(old(rows), nom, etat, now)
    {
      var actuel := GetEtat(nom);
      if actuel == "OFF" && etat != "OFF" {
        if nom !in rows && SqlSafe(nom) && SqlSafe(etat) {
          rows := rows[nom := ActivationRow(etat, now)];
        }
      }
      if nom in rows {
        var r := rows[nom].(etat := Some(etat), changed := now);
        if etat == "ON" && actuel != "ON" {
          r := r.(onCount := r.onCount + 1);
        } else if etat == "OFF" && actuel != "OFF" {
          r := r.(offCount := r.offCount + 1);
        }
        rows := rows[nom := r];
      }
    }

    /** resetDB: DELETE FROM etat_appareils. */
    method ResetDB()
      modifies this
      ensures rows == map[]
    {
      rows := map[];
    }

    /** insert_initial_devices over a catalog of tuples: one INSERT OR
        IGNORE built as SQL text per tuple, which inserts nothing for a tuple
        holding an apostrophe. */
    method InsertInitialDevices(catalog: seq<Entry>, now: nat)
      modifies this
      ensures rows == SeededAsWritten(old(rows), catalog, now)
      ensures forall e :: e in catalog && EntrySqlSafe(e) ==> e.name in rows
      ensures forall n :: n in old(rows) ==> n in rows && rows[n] == old(rows)[n]
      ensures (forall e :: e in catalog ==> EntrySqlSafe(e)) ==> rows == Seeded(old(rows), catalog, now)
    {
      var i := 0;
      while i < |catalog|
        invariant 0 <= i <= |catalog|
        invariant Seeded(rows, SafeEntries(catalog[i..]), now) == SeededAsWritten(old(rows), catalog, now)
      {
        var e := catalog[i];
        SafeSeedingStep(rows, catalog, i, now);
        if EntrySqlSafe(e) && e.name !in rows {
          rows := rows[e.name := SeedRow(e, now)];
        }
        i := i + 1;
      }
      assert catalog[|catalog|..] == [];
      SeededAsWrittenFacts(old(rows), catalog, now);
    }
  }

  // ---------------------------------------------------------------------
  // The lookup

  /** A device the table does not know reads as OFF at the fallback address
      with the all-zero input code. */
  lemma UnknownDeviceDefaults(t: Table, nom: string)
    requires nom !in t
    ensures DetailsOf(t, nom) == Details(DEFAULT_SIM_IP, DEFAULT_INPUT, DEFAULT_SIM_PORT, "OFF")
    ensures StateOf(t, nom) == "OFF"
  {
  }

  // ---------------------------------------------------------------------
  // The transition rule

  /** On a device that has a row: the state becomes the requested one, the
      time stamp moves, compteur_on rises by one exactly when the request is
      ON and the previous state was not, compteur_off likewise for OFF, and
      the address, input code and port stay as they were. */
  lemma ExistingDeviceTransition(t: Table, nom: string, etat: string, now: nat)
    requires nom in t
    ensures var r, r' := t[nom], Transition(t, nom, etat, now)[nom];
      && r'.etat == Some(etat) && r'.changed == now
      && r'.ip == r.ip && r'.input == r.input && r'.port == r.port
      && (r'.onCount == r.onCount + 1 <==> etat == "ON" && StateOf(t, nom) != "ON")
      && (r'.onCount != r.onCount + 1 ==> r'.onCount == r.onCount)
      && (r'.offCount == r.offCount + 1 <==> etat == "OFF" && StateOf(t, nom) != "OFF")
      && (r'.offCount != r.offCount + 1 ==> r'.offCount == r.offCount)
  {
  }

  /** At most one counter moves, and only by one. */
  lemma AtMostOneCounterMoves(t: Table, nom: string, etat: string, now: nat)
    requires nom in Transition(t, nom, etat, now)
    ensures var t' := Transition(t, nom, etat, now);
      var on := if nom in t then t[nom].onCount else 0;
      var off := if nom in t then t[nom].offCount else 0;
      (t'[nom].onCount - on) + (t'[nom].offCount - off) <= 1
  {
  }

  /** Asking for the state a device already has moves no counter. */
  lemma SameStateKeepsCounters(t: Table, nom: string, now: nat)
    ensures var t' := Transition(t, nom, StateOf(t, nom), now);
      && t'.Keys == t.Keys
      && forall n :: n in t ==> t'[n].onCount == t[n].onCount && t'[n].offCount == t[n].offCount
  {
  }

  /** A device without a row that is switched to anything but OFF gets the
      default address, the default input code, the schema port and counters
      at zero, then the ordinary rule applies: ON leaves it with
      compteur_on 1. */
  lemma FirstActivation(t: Table, nom: string, etat: string, now: nat)
    requires nom !in t && etat != "OFF"
    ensures Transition(t, nom, etat, now)
      == t[nom := Row(Some(DEFAULT_SIM_IP), Some(DEFAULT_INPUT), Some(etat), SCHEMA_PORT,
                      if etat == "ON" then 1 else 0, 0, now)]
  {
  }

  /** Switching an unknown device OFF leaves the table as it was. */
  lemma UnknownDeviceOffIsNoOp(t: Table, nom: string, now: nat)
    requires nom !in t
    ensures Transition(t, nom, "OFF", now) == t
  {
  }

  /** Rows of other devices are never touched, and no row is ever removed. */
  lemma OtherDevicesUntouched(t: Table, nom: string, etat: string, now: nat)
    ensures var t' := Transition(t, nom, etat, now);
      && t.Keys <= t'.Keys && t'.Keys <= t.Keys + {nom}
      && forall n :: n in t && n != nom ==> t'[n] == t[n]
  {
  }

  /** After majEtat the device reads back as the requested state. */
  lemma ReadBackRequestedState(t: Table, nom: string, etat: string, now: nat)
    ensures StateOf(Transition(t, nom, etat, now), nom) == etat
  {
  }

  /** A single transition never lowers a counter. */
  lemma TransitionCountersGrow(t: Table, nom: string, etat: string, now: nat)
    ensures CountersGrow(t, Transition(t, nom, etat, now))
  {
  }

  /** A sequence of update requests (device, state), applied in order at
      successive times starting at `now`. */
  function ApplyAll(t: Table, requests: seq<(string, string)>, now: nat): Table
    decreases |requests|
  {
    if requests == [] then t
    else ApplyAll(Transition(t, requests[0].0, requests[0].1, now), requests[1..], now + 1)
  }

  /** Counters never decrease across any sequence of update requests. */
  lemma {:induction false} CountersNeverDecrease(t: Table, requests: seq<(string, string)>, now: nat)
    ensures CountersGrow(t, ApplyAll(t, requests, now))
    decreases |requests|
  {
    if requests != [] {
      var t1 := Transition(t, requests[0].0, requests[0].1, now);
      TransitionCountersGrow(t, requests[0].0, requests[0].1, now);
      CountersNeverDecrease(t1, requests[1..], now + 1);
    }
  }

  // ---------------------------------------------------------------------
  // Seeding

  /** Seeding adds exactly the catalog names to the keys. */
  lemma {:induction false} SeededKeys(t: Table, catalog: seq<Entry>, now: nat)
    ensures Seeded(t, catalog, now).Keys == t.Keys + Names(catalog)
    decreases |catalog|
  {
    if catalog != [] {
      var e := catalog[0];
      var t1 := if e.name in t then t else t[e.name := SeedRow(e, now)];
      SeededKeys(t1, catalog[1..], now);
      assert Names(catalog) == {e.name} + Names(catalog[1..]) by {
        assert forall x :: x in catalog ==> x == e || x in catalog[1..];
      }
    }
  }

  /** Seeding never overwrites a row that is already there. */
  lemma {:induction false} SeedingKeepsRows(t: Table, catalog: seq<Entry>, now: nat)
    ensures forall n :: n in t ==> n in Seeded(t, catalog, now) && Seeded(t, catalog, now)[n] == t[n]
    decreases |catalog|
  {
    if catalog != [] {
      var e := catalog[0];
      var t1 := if e.name in t then t else t[e.name := SeedRow(e, now)];
      SeedingKeepsRows(t1, catalog[1..], now);
    }
  }

  /** A table that already holds every catalog name is left as it is. */
  lemma {:induction false} SeedingPresentIsNoOp(t: Table, catalog: seq<Entry>, now: nat)
    requires Names(catalog) <= t.Keys
    ensures Seeded(t, catalog, now) == t
    decreases |catalog|
  {
    if catalog != [] {
      assert catalog[0] in catalog;
      assert Names(catalog[1..]) <= Names(catalog) by {
        assert forall x :: x in catalog[1..] ==> x in catalog;
      }
      SeedingPresentIsNoOp(t, catalog[1..], now);
    }
  }

  /** Seeding twice is the same as seeding once, whatever the clock says. */
  lemma SeedingIdempotent(t: Table, catalog: seq<Entry>, now: nat, later: nat)
    ensures Seeded(Seeded(t, catalog, now), catalog, later) == Seeded(t, catalog, now)
  {
    SeededKeys(t, catalog, now);
    SeedingPresentIsNoOp(Seeded(t, catalog, now), catalog, later);
  }

  /** The first tuple carrying a name that is not yet in the table decides
      that name's row. */
  lemma {:induction false} SeededFirstOccurrence(t: Table, catalog: seq<Entry>, now: nat, i: nat)
    requires i < |catalog| && catalog[i].name !in t
    requires forall j :: 0 <= j < i ==> catalog[j].name != catalog[i].name
    ensures catalog[i].name in Seeded(t, catalog, now)
    ensures Seeded(t, catalog, now)[catalog[i].name] == SeedRow(catalog[i], now)
    decreases |catalog|
  {
    var e := catalog[0];
    var t1 := if e.name in t then t else t[e.name := SeedRow(e, now)];
    if i == 0 {
      SeedingKeepsRows(t1, catalog[1..], now);
    } else {
      assert forall j :: 0 <= j < i - 1 ==> catalog[1..][j] == catalog[j + 1];
      SeededFirstOccurrence(t1, catalog[1..], now, i - 1);
    }
  }

  /** Reset followed by seeding leaves exactly the catalog's devices, each
      with the values of its tuple and both counters at 0. */
  lemma ResetThenSeed(catalog: seq<Entry>, now: nat)
    requires forall i, j :: 0 <= i < j < |catalog| ==> catalog[i].name != catalog[j].name
    ensures Seeded(map[], catalog, now).Keys == Names(catalog)
    ensures forall i :: 0 <= i < |catalog| ==> Seeded(map[], catalog, now)[catalog[i].name] == SeedRow(catalog[i], now)
  {
    SeededKeys(map[], catalog, now);
    forall i | 0 <= i < |catalog|
      ensures Seeded(map[], catalog, now)[catalog[i].name] == SeedRow(catalog[i], now)
    {
      SeededFirstOccurrence(map[], catalog, now, i);
    }
  }

  // ---------------------------------------------------------------------
  // The statements as written: SQL text built with snprintf

  /** A string that can stand between the single quotes of an SQL literal
      without ending it early. */
  predicate SqlSafe(s: string) {
    '\'' !in s
  }

  predicate EntrySqlSafe(e: Entry) {
    SqlSafe(e.name) && SqlSafe(e.ip) && SqlSafe(e.input) && SqlSafe(e.etat)
  }

  /** The tuples whose INSERT text parses, in catalog order. */
  function SafeEntries(catalog: seq<Entry>): (r: seq<Entry>)
    ensures forall e :: e in r <==> e in catalog && EntrySqlSafe(e)
    ensures |r| <= |catalog|
    decreases |catalog|
  {
    if catalog == [] then []
    else (if EntrySqlSafe(catalog[0]) then [catalog[0]] else []) + SafeEntries(catalog[1..])
  }

  lemma SafeEntriesCons(e: Entry, rest: seq<Entry>)
    ensures SafeEntries([e] + rest) == (if EntrySqlSafe(e) then [e] else []) + SafeEntries(rest)
  {
    assert ([e] + rest)[0] == e;
    assert ([e] + rest)[1..] == rest;
  }

  lemma SeededCons(t: Table, e: Entry, rest: seq<Entry>, now: nat)
    ensures Seeded(t, [e] + rest, now) == Seeded(if e.name in t then t else t[e.name := SeedRow(e, now)], rest, now)
  {
    assert ([e] + rest)[0] == e;
    assert ([e] + rest)[1..] == rest;
  }

  /** One turn of the seeding loop as written. */
  lemma SafeSeedingStep(t: Table, catalog: seq<Entry>, i: nat, now: nat)
    requires i < |catalog|
    ensures var e := catalog[i];
      Seeded(t, SafeEntries(catalog[i..]), now)
        == Seeded(if EntrySqlSafe(e) && e.name !in t then t[e.name := SeedRow(e, now)] else t,
                  SafeEntries(catalog[i + 1..]), now)
  {
    var e := catalog[i];
    assert catalog[i..] == [e] + catalog[i + 1..];
    SafeEntriesCons(e, catalog[i + 1..]);
    if EntrySqlSafe(e) {
      SeededCons(t, e, SafeEntries(catalog[i + 1..]), now);
    } else {
      assert SafeEntries(catalog[i..]) == SafeEntries(catalog[i + 1..]);
    }
  }

  /** A catalog without apostrophes loses nothing. */
  lemma {:induction false} SafeEntriesOfSafeCatalog(catalog: seq<Entry>)
    requires forall e :: e in catalog ==> EntrySqlSafe(e)
    ensures SafeEntries(catalog) == catalog
    decreases |catalog|
  {
    if catalog != [] {
      assert catalog[0] in catalog;
      assert forall e :: e in catalog[1..] ==> e in catalog;
      SafeEntriesOfSafeCatalog(catalog[1..]);
      assert catalog == [catalog[0]] + catalog[1..];
    }
  }

  /** insert_initial_devices as written: each INSERT is SQL text with the
      tuple pasted between quotes, so a tuple holding an apostrophe makes a
      statement that does not parse, and sqlite3_exec inserts nothing. */
  function SeededAsWritten(t: Table, catalog: seq<Entry>, now: nat): Table {
    Seeded(t, SafeEntries(catalog), now)
  }

  /** majEtat as written: its INSERT is SQL text too, so a device whose name
      or requested state holds an apostrophe is never created, and the
      UPDATE that follows finds no row. */
  function TransitionAsWritten(t: Table, nom: string, etat: string, now: nat): Table {
    if nom !in t && !(SqlSafe(nom) && SqlSafe(etat)) then t else Transition(t, nom, etat, now)
  }

  /** For a catalog without apostrophes the seeding as written is the
      intended one, so every seeding lemma above applies to it. */
  lemma SafeCatalogAsWritten(t: Table, catalog: seq<Entry>, now: nat)
    ensures (forall e :: e in catalog ==> EntrySqlSafe(e)) ==> SeededAsWritten(t, catalog, now) == Seeded(t, catalog, now)
  {
    if forall e :: e in catalog ==> EntrySqlSafe(e) {
      SafeEntriesOfSafeCatalog(catalog);
    }
  }

  /** As written, seeding adds exactly the names of the apostrophe-free
      tuples, and keeps every existing row. */
  lemma SafeSeedingKeys(t: Table, catalog: seq<Entry>, now: nat)
    ensures SeededAsWritten(t, catalog, now).Keys == t.Keys + Names(SafeEntries(catalog))
    ensures forall e :: e in catalog && EntrySqlSafe(e) ==> e.name in SeededAsWritten(t, catalog, now)
  {
    SeededKeys(t, SafeEntries(catalog), now);
  }

  /** What the seeding as written guarantees about the table it starts
      from. */
  lemma SeededAsWrittenFacts(t: Table, catalog: seq<Entry>, now: nat)
    ensures var s := SeededAsWritten(t, catalog, now);
      && (forall e :: e in catalog && EntrySqlSafe(e) ==> e.name in s)
      && (forall n :: n in t ==> n in s && s[n] == t[n])
      && ((forall e :: e in catalog ==> EntrySqlSafe(e)) ==> s == Seeded(t, catalog, now))
  {
    SafeSeedingKeys(t, catalog, now);
    SeedingKeepsRows(t, SafeEntries(catalog), now);
    SafeCatalogAsWritten(t, catalog, now);
  }

  /** Where no apostrophe is involved, or the device already has a row, the
      update as written is the intended transition, so every transition
      lemma above applies to it. */
  lemma SafeTransitionAsWritten(t: Table, nom: string, etat: string, now: nat)
    requires nom in t || (SqlSafe(nom) && SqlSafe(etat))
    ensures TransitionAsWritten(t, nom, etat, now) == Transition(t, nom, etat, now)
  {
  }

  /** The update as written also never removes a row or lowers a counter. */
  lemma AsWrittenCountersGrow(t: Table, nom: string, etat: string, now: nat)
    ensures CountersGrow(t, TransitionAsWritten(t, nom, etat, now))
  {
    TransitionCountersGrow(t, nom, etat, now);
  }

  /** As written, a catalog tuple whose name holds an apostrophe never
      reaches the table after a reset. */
  lemma AsWrittenSkipsApostrophe(catalog: seq<Entry>, now: nat, i: nat)
    requires i < |catalog| && !SqlSafe(catalog[i].name)
    ensures catalog[i].name !in SeededAsWritten(map[], catalog, now)
  {
    var safe := SafeEntries(catalog);
    SeededKeys(map[], safe, now);
    assert catalog[i].name !in Names(safe);
  }

  /** The catalog's own tuple for the summer-kitchen porthole light. */
  const APOSTROPHE_ENTRY := Entry("Terrasse - Hublot cuisine d'été", "192.168.0.100", "01000110", "OFF", 49644)

  /** That tuple is lost by the seeding as written and present with the
      seeding as intended; and the same name can never be created by an
      update either. */
  lemma ApostropheDeviceLost(catalog: seq<Entry>, now: nat)
    requires APOSTROPHE_ENTRY in catalog
    requires forall i, j :: 0 <= i < j < |catalog| ==> catalog[i].name != catalog[j].name
    ensures APOSTROPHE_ENTRY.name !in SeededAsWritten(map[], catalog, now)
    ensures APOSTROPHE_ENTRY.name in Seeded(map[], catalog, now)
    ensures Seeded(map[], catalog, now)[APOSTROPHE_ENTRY.name] == SeedRow(APOSTROPHE_ENTRY, now)
    ensures TransitionAsWritten(map[], APOSTROPHE_ENTRY.name, "ON", now) == map[]
    ensures StateOf(Transition(map[], APOSTROPHE_ENTRY.name, "ON", now), APOSTROPHE_ENTRY.name) == "ON"
  {
    var i :| 0 <= i < |catalog| && catalog[i] == APOSTROPHE_ENTRY;
    assert APOSTROPHE_ENTRY.name[27] == '\'';
    AsWrittenSkipsApostrophe(catalog, now, i);
    ResetThenSeed(catalog, now);
  }
}
