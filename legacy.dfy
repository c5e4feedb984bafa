/** main.c, the older server on the same table name: no address columns,
    a majEtat that only updates, counter resets, the alert once a device has
    been switched off SEUIL_PREDICTION times, and requests that act through
    substrings such as "lumiere=on" found anywhere in the received bytes. */
module Legacy {
  import opened CStrings

  const SEUIL_PREDICTION := 5

  /** One row of main.c's table; `changed` is dernier_changement. */
  datatype Row = Row(etat: string, onCount: nat, offCount: nat, changed: nat)

  type Table = map<string, Row>

  /** getEtat: the stored state, "OFF" for a device without a row. */
  function StateOf(t: Table, nom: string): string {
    if nom in t then t[nom].etat else "OFF"
  }

  /** The UPDATE majEtat issues, applied to an existing row. */
  function UpdatedRow(r: Row, etat: string, now: nat): Row {
    var incOn := r.etat != "ON" && etat == "ON";
    var incOff := r.etat != "OFF" && etat == "OFF";
    if incOn then Row(etat, r.onCount + 1, r.offCount, now)
    else if incOff then Row(etat, r.onCount, r.offCount + 1, now)
    else Row(etat, r.onCount, r.offCount, now)
  }

  /** majEtat: an UPDATE … WHERE appareil = nom, so nothing happens to a
      device without a row. */
  function Transition(t: Table, nom: string, etat: string, now: nat): Table {
    if nom in t then t[nom := UpdatedRow(t[nom], etat, now)] else t
  }

  /** resetCompteur. */
  function CountersReset(t: Table, nom: string): Table {
    if nom in t then t[nom := t[nom].(onCount := 0, offCount := 0)] else t
  }

  const ALERT_PREFIX := "⚠️ Attention, "
  const ALERT_MIDDLE := " a été éteint "
  const ALERT_SUFFIX := " fois !"

  /** getMessagePrediction: the alert text once compteur_off has reached the
      threshold, "" otherwise. */
  function Prediction(t: Table, nom: string): string {
    if nom in t && t[nom].offCount >= SEUIL_PREDICTION then
      ALERT_PREFIX + nom + ALERT_MIDDLE + Decimal(t[nom].offCount) + ALERT_SUFFIX
    else ""
  }

  /** One INSERT OR IGNORE of initDB. */
  function SeedOne(t: Table, nom: string, now: nat): Table {
    if nom in t then t else t[nom := Row("OFF", 0, 0, now)]
  }

  /** initDB's three inserts. */
  function Seeded(t: Table, now: nat): Table {
    SeedOne(SeedOne(SeedOne(t, "lumiere", now), "volets", now), "clim", now)
  }

  datatype Action = SetState(device: string, etat: string) | ResetCounters(device: string)

  /** A substring to look for in the request and the action it triggers. */
  datatype Trigger = Trigger(pattern: string, action: Action)

  const SET_TRIGGERS := [
    Trigger("lumiere=on", SetState("lumiere", "ON")),
    Trigger("lumiere=off", SetState("lumiere", "OFF")),
    Trigger("volets=ouvrir", SetState("volets", "ON")),
    Trigger("volets=fermer", SetState("volets", "OFF")),
    Trigger("clim=on", SetState("clim", "ON")),
    Trigger("clim=off", SetState("clim", "OFF"))
  ]

  const RESET_TRIGGERS := [
    Trigger("lumiere=reset", ResetCounters("lumiere")),
    Trigger("volets=reset", ResetCounters("volets")),
    Trigger("clim=reset", ResetCounters("clim"))
  ]

  /** The substring tests of main's loop, in source order. */
  const TRIGGERS := SET_TRIGGERS + RESET_TRIGGERS

  function Perform(t: Table, a: Action, now: nat): Table {
    match a
    case SetState(d, e) => Transition(t, d, e, now)
    case ResetCounters(d) => CountersReset(t, d)
  }

  /** Every trigger whose pattern occurs in the request runs its action, one
      after another in the order of ts. */
  function Dispatch(t: Table, ts: seq<Trigger>, text: string, now: nat): Table
    decreases |ts|
  {
    if ts == [] then t
    else
      var prev := Dispatch(t, ts[..|ts| - 1], text, now);
      var tr := ts[|ts| - 1];
      if Contains(text, tr.pattern) then Perform(prev, tr.action, now) else prev
  }

  /** What the page shows: the three states and the three alerts. */
  datatype View = View(lumiere: string, volets: string, clim: string,
                       lumiereAlert: string, voletsAlert: string, climAlert: string)

  function ViewOf(t: Table): View {
    View(StateOf(t, "lumiere"), StateOf(t, "volets"), StateOf(t, "clim"),
         Prediction(t, "lumiere"), Prediction(t, "volets"), Prediction(t, "clim"))
  }

  class LegacyTable {
    var rows: Table

    /** The table as the database file holds it when the server starts. */
    constructor (stored: Table)
      ensures rows == stored
    {
      rows := stored;
    }

    /** getEtat. */
    method GetEtat(nom: string) returns (etat: string)
      ensures nom !in rows ==> etat == "OFF"
      ensures nom in rows ==> etat == rows[nom].etat
    {
      etat := "OFF";
      if nom in rows {
        etat := rows[nom].etat;
      }
    }

    /** majEtat. */
    method MajEtat(nom: string, etat: string, now: nat)
      modifies this
      ensures rows == Transition(old(rows), nom, etat, now)
    {
      var actuel := GetEtat(nom);
      var incOn := actuel != "ON" && etat == "ON";
      var incOff := actuel != "OFF" && etat == "OFF";
      if nom in rows {
        var r := rows[nom];
        if incOn {
          rows := rows[nom := Row(etat, r.onCount + 1, r.offCount, now)];
        } else if incOff {
          rows := rows[nom := Row(etat, r.onCount, r.offCount + 1, now)];
        } else {
          rows := rows[nom := Row(etat, r.onCount, r.offCount, now)];
        }
      }
    }

    /** getMessagePrediction. */
    method GetMessagePrediction(nom: string) returns (message: string)
      ensures message == Prediction(rows, nom)
      ensures message != "" <==> nom in rows && rows[nom].offCount >= SEUIL_PREDICTION
      ensures message != "" ==> Contains(message, nom) && Contains(message, Decimal(rows[nom].offCount))
    {
      message := "";
      if nom in rows {
        var off := rows[nom].offCount;
        if off >= SEUIL_PREDICTION {
          message := ALERT_PREFIX + nom + ALERT_MIDDLE + Decimal(off) + ALERT_SUFFIX;
          MentionsNameAndCount(nom, off);
        }
      }
    }

    /** resetCompteur. */
    method ResetCompteur(nom: string)
      modifies this
      ensures rows == CountersReset(old(rows), nom)
    {
      if nom in rows {
        rows := rows[nom := rows[nom].(onCount := 0, offCount := 0)];
      }
    }

    /** The seeding part of initDB. */
    method InitDB(now: nat)
      modifies this
      ensures rows == Seeded(old(rows), now)
    {
      if "lumiere" !in rows {
        rows := rows["lumiere" := Row("OFF", 0, 0, now)];
      }
      if "volets" !in rows {
        rows := rows["volets" := Row("OFF", 0, 0, now)];
      }
      if "clim" !in rows {
        rows := rows["clim" := Row("OFF", 0, 0, now)];
      }
    }

    /** One pass of main's loop over the received bytes: a request for
        favicon.ico is dropped; otherwise every action whose pattern occurs
        runs, then the states and alerts for the page are read. */
    method HandleRequest(buffer: string, now: nat) returns (view: Option<View>)
      modifies this
      ensures var text := UntilNul(buffer);
        if Contains(text, "favicon.ico") then view == None && rows == old(rows)
        else rows == Dispatch(old(rows), TRIGGERS, text, now) && view == Some(ViewOf(rows))
    {
      var text := UntilNul(buffer);
      if Contains(text, "favicon.ico") {
        return None;
      }
      var i := 0;
      while i < |TRIGGERS|
        invariant 0 <= i <= |TRIGGERS|
        invariant rows == Dispatch(old(rows), TRIGGERS[..i], text, now)
      {
        var tr := TRIGGERS[i];
        assert TRIGGERS[..i + 1][..i] == TRIGGERS[..i];
        if Contains(text, tr.pattern) {
          match tr.action
          case SetState(d, e) =>
            MajEtat(d, e, now);
          case ResetCounters(d) =>
            ResetCompteur(d);
        }
        i := i + 1;
      }
      assert TRIGGERS[..|TRIGGERS|] == TRIGGERS;
      var l := GetEtat("lumiere");
      var v := GetEtat("volets");
      var c := GetEtat("clim");
      var ml := GetMessagePrediction("lumiere");
      var mv := GetMessagePrediction("volets");
      var mc := GetMessagePrediction("clim");
      view := Some(View(l, v, c, ml, mv, mc));
    }
  }

  /** The alert names the device and gives the count in decimal. */
  lemma MentionsNameAndCount(nom: string, off: nat)
    ensures var m := ALERT_PREFIX + nom + ALERT_MIDDLE + Decimal(off) + ALERT_SUFFIX;
      Contains(m, nom) && Contains(m, Decimal(off))
  {
    var m := ALERT_PREFIX + nom + ALERT_MIDDLE + Decimal(off) + ALERT_SUFFIX;
    var i := |ALERT_PREFIX|;
    assert m[i..][..|nom|] == nom;
    var j := |ALERT_PREFIX + nom + ALERT_MIDDLE|;
    assert m[j..][..|Decimal(off)|] == Decimal(off);
  }

  // ---------------------------------------------------------------------
  // The transition rule of main.c

  /** On a device with a row: the state becomes the requested one,
      compteur_on rises by one exactly when the request is ON and the old
      state was not, compteur_off likewise for OFF, otherwise only the state
      and the time stamp change. */
  lemma CounterRule(t: Table, nom: string, etat: string, now: nat)
    requires nom in t
    ensures var r, r' := t[nom], Transition(t, nom, etat, now)[nom];
      && r'.etat == etat && r'.changed == now
      && r'.onCount == r.onCount + (if etat == "ON" && r.etat != "ON" then 1 else 0)
      && r'.offCount == r.offCount + (if etat == "OFF" && r.etat != "OFF" then 1 else 0)
  {
  }

  /** majEtat never creates a row. */
  lemma UnknownDeviceUnchanged(t: Table, nom: string, etat: string, now: nat)
    requires nom !in t
    ensures Transition(t, nom, etat, now) == t
  {
  }

  /** resetCompteur zeroes both counters of the named device and changes
      nothing else: not its state, not its time stamp, not other rows. */
  lemma ResetTouchesOnlyCounters(t: Table, nom: string)
    ensures CountersReset(t, nom).Keys == t.Keys
    ensures nom in t ==> CountersReset(t, nom)[nom] == Row(t[nom].etat, 0, 0, t[nom].changed)
    ensures forall n :: n in t && n != nom ==> CountersReset(t, nom)[n] == t[n]
  {
  }

  /** The alert appears exactly when the row exists and compteur_off has
      reached the threshold. */
  lemma PredictionThreshold(t: Table, nom: string)
    ensures Prediction(t, nom) != "" <==> nom in t && t[nom].offCount >= SEUIL_PREDICTION
  {
  }

  /** Seeding never overwrites an existing row, always leaves the three test
      devices present, and a second seeding changes nothing. */
  lemma SeedingKeepsRows(t: Table, now: nat, later: nat)
    ensures var s := Seeded(t, now);
      && s.Keys == t.Keys + {"lumiere", "volets", "clim"}
      && (forall n :: n in t ==> s[n] == t[n])
      && (forall n :: n in s && n !in t ==> s[n] == Row("OFF", 0, 0, now))
      && Seeded(s, later) == s
  {
  }

  // ---------------------------------------------------------------------
  // The dispatch

  lemma {:induction false} DispatchAppend(t: Table, a: seq<Trigger>, b: seq<Trigger>, text: string, now: nat)
    ensures Dispatch(t, a + b, text, now) == Dispatch(Dispatch(t, a, text, now), b, text, now)
    decreases |b|
  {
    if b == [] {
      assert a + b == a;
    } else {
      assert (a + b)[..|a + b| - 1] == a + b[..|b| - 1];
      assert (a + b)[|a + b| - 1] == b[|b| - 1];
      DispatchAppend(t, a, b[..|b| - 1], text, now);
    }
  }

  /** All ON/OFF actions run before any counter reset. */
  lemma SetsBeforeResets(t: Table, text: string, now: nat)
    ensures forall i :: 0 <= i < |SET_TRIGGERS| ==> SET_TRIGGERS[i].action.SetState?
    ensures forall i :: 0 <= i < |RESET_TRIGGERS| ==> RESET_TRIGGERS[i].action.ResetCounters?
    ensures Dispatch(t, TRIGGERS, text, now)
         == Dispatch(Dispatch(t, SET_TRIGGERS, text, now), RESET_TRIGGERS, text, now)
  {
    DispatchAppend(t, SET_TRIGGERS, RESET_TRIGGERS, text, now);
  }

  function DeviceOf(a: Action): string {
    match a
    case SetState(d, _) => d
    case ResetCounters(d) => d
  }

  /** Actions on other devices leave a device's row alone. */
  lemma {:induction false} OtherDevicesUntouched(t: Table, ts: seq<Trigger>, text: string, now: nat, dev: string)
    requires forall i :: 0 <= i < |ts| ==> DeviceOf(ts[i].action) != dev
    ensures dev in Dispatch(t, ts, text, now) <==> dev in t
    ensures dev in t ==> Dispatch(t, ts, text, now)[dev] == t[dev]
    decreases |ts|
  {
    if ts != [] {
      OtherDevicesUntouched(t, ts[..|ts| - 1], text, now, dev);
    }
  }

  /** One trigger on its own. */
  lemma DispatchOne(t: Table, tr: Trigger, text: string, now: nat)
    ensures Dispatch(t, [tr], text, now)
         == if Contains(text, tr.pattern) then Perform(t, tr.action, now) else t
  {
    assert [tr][..0] == [];
  }

  /** In the ON/OFF phase, "lumiere=on" without "lumiere=off" switches an
      existing lumiere row ON. */
  lemma LumiereSwitchedOn(t: Table, text: string, now: nat)
    requires "lumiere" in t
    requires Contains(text, "lumiere=on") && !Contains(text, "lumiere=off")
    ensures var t2 := Dispatch(t, SET_TRIGGERS, text, now);
      "lumiere" in t2 && t2["lumiere"] == UpdatedRow(t["lumiere"], "ON", now)
  {
    var first := SET_TRIGGERS[..2];
    var others := SET_TRIGGERS[2..];
    assert SET_TRIGGERS == first + others;
    DispatchAppend(t, first, others, text, now);
    assert first == [SET_TRIGGERS[0]] + [SET_TRIGGERS[1]];
    DispatchAppend(t, [SET_TRIGGERS[0]], [SET_TRIGGERS[1]], text, now);
    DispatchOne(t, SET_TRIGGERS[0], text, now);
    var t0 := Dispatch(t, [SET_TRIGGERS[0]], text, now);
    DispatchOne(t0, SET_TRIGGERS[1], text, now);
    var t1 := Dispatch(t, first, text, now);
    assert t1 == Transition(t, "lumiere", "ON", now);
    OtherDevicesUntouched(t1, others, text, now, "lumiere");
  }

  /** In the reset phase, "lumiere=reset" zeroes the lumiere counters and
      leaves the rest of its row alone. */
  lemma LumiereCountersReset(t: Table, text: string, now: nat)
    requires "lumiere" in t
    requires Contains(text, "lumiere=reset")
    ensures var t3 := Dispatch(t, RESET_TRIGGERS, text, now);
      "lumiere" in t3 && t3["lumiere"] == t["lumiere"].(onCount := 0, offCount := 0)
  {
    var rest := RESET_TRIGGERS[1..];
    assert RESET_TRIGGERS == [RESET_TRIGGERS[0]] + rest;
    DispatchAppend(t, [RESET_TRIGGERS[0]], rest, text, now);
    DispatchOne(t, RESET_TRIGGERS[0], text, now);
    var t1 := Dispatch(t, [RESET_TRIGGERS[0]], text, now);
    assert t1 == CountersReset(t, "lumiere");
    OtherDevicesUntouched(t1, rest, text, now, "lumiere");
  }

  /** A request holding both "lumiere=on" and "lumiere=reset" (and not
      "lumiere=off") leaves an existing lumiere row ON with both counters
      at 0: the reset runs after the switch. */
  lemma OnThenReset(t: Table, text: string, now: nat)
    requires "lumiere" in t
    requires Contains(text, "lumiere=on") && Contains(text, "lumiere=reset") && !Contains(text, "lumiere=off")
    ensures "lumiere" in Dispatch(t, TRIGGERS, text, now)
    ensures Dispatch(t, TRIGGERS, text, now)["lumiere"] == Row("ON", 0, 0, now)
  {
    SetsBeforeResets(t, text, now);
    LumiereSwitchedOn(t, text, now);
    var t2 := Dispatch(t, SET_TRIGGERS, text, now);
    LumiereCountersReset(t2, text, now);
  }
}
