/** The body of domoserver.c's accept loop: the request line is split into a
    method and a request target (section 3.1.1 of RFC 7230) the way
    sscanf("%15s %1023s") does it, the pair is mapped onto a route, and the
    route runs against the device table and the forwarder. */
module Router {
  import opened CStrings
  import opened Query
  import opened Registry
  import opened Forwarder

  /** The field widths of the sscanf conversions. */
  const METHOD_WIDTH := 15
  const TARGET_WIDTH := 1023

  const UPDATE_PREFIX := "/update"
  const OK_BODY := "OK"
  const MISSING_PARAMS_BODY := "Missing params"
  const RESET_BODY := "Base réinitialisée et rechargée"

  /** The text after the leading white space. */
  function SkipSpaces(s: string): (r: string)
    ensures |r| <= |s| && r == s[|s| - |r|..]
    ensures r == [] || !IsSpace(r[0])
    decreases |s|
  {
    if s != [] && IsSpace(s[0]) then SkipSpaces(s[1..]) else s
  }

  /** How many characters a %Ns conversion takes from s, which starts past
      the white space: non-space characters, at most `width` of them. */
  function WordLength(s: string, width: nat): (n: nat)
    ensures n <= |s| && n <= width
    ensures forall i :: 0 <= i < n ==> !IsSpace(s[i])
    decreases width
  {
    if s == [] || width == 0 || IsSpace(s[0]) then 0 else 1 + WordLength(s[1..], width - 1)
  }

  /** One %Ns conversion: the word read and the text left after it. */
  function ScanWord(s: string, width: nat): (string, string) {
    var t := SkipSpaces(s);
    var n := WordLength(t, width);
    (t[..n], t[n..])
  }

  datatype RequestLine = RequestLine(verb: string, target: string)

  /** sscanf(recvbuf, "%15s %1023s", method, path) on zero-initialised
      buffers: a conversion that finds no word leaves its buffer empty. */
  function ParseRequestLine(raw: string): RequestLine {
    var text := UntilNul(raw);
    var (m, rest) := ScanWord(text, METHOD_WIDTH);
    var (p, _) := ScanWord(rest, TARGET_WIDTH);
    RequestLine(m, p)
  }

  lemma {:induction false} WordLengthOfWord(w: string, tail: string, width: nat)
    requires forall i :: 0 <= i < |w| ==> !IsSpace(w[i])
    requires |w| <= width
    requires tail == [] || IsSpace(tail[0])
    ensures WordLength(w + tail, width) == |w|
    decreases |w|
  {
    if w == [] {
      assert w + tail == tail;
    } else {
      assert (w + tail)[1..] == w[1..] + tail;
      WordLengthOfWord(w[1..], tail, width - 1);
    }
  }

  /** A %Ns conversion on a word that fits the width and is followed by
      white space or the end reads that word and leaves the rest. */
  lemma ScanWordOf(w: string, tail: string, width: nat)
    requires w != [] && |w| <= width
    requires forall i :: 0 <= i < |w| ==> !IsSpace(w[i])
    requires tail == [] || IsSpace(tail[0])
    ensures ScanWord(w + tail, width) == (w, tail)
    ensures ScanWord([' '] + w + tail, width) == (w, tail)
  {
    assert (w + tail)[0] == w[0];
    assert SkipSpaces(w + tail) == w + tail;
    assert ([' '] + w + tail)[1..] == w + tail;
    WordLengthOfWord(w, tail, width);
    assert (w + tail)[..|w|] == w;
    assert (w + tail)[|w|..] == tail;
  }

  /** A request line "METHOD TARGET…" whose two words fit their widths is
      read as exactly those two words. */
  lemma RequestLineWords(m: string, p: string, tail: string)
    requires m != [] && p != []
    requires |m| <= METHOD_WIDTH && |p| <= TARGET_WIDTH
    requires forall i :: 0 <= i < |m| ==> !IsSpace(m[i]) && m[i] != '\0'
    requires forall i :: 0 <= i < |p| ==> !IsSpace(p[i]) && p[i] != '\0'
    requires '\0' !in tail && (tail == [] || IsSpace(tail[0]))
    ensures ParseRequestLine(m + " " + p + tail) == RequestLine(m, p)
  {
    var raw := m + " " + p + tail;
    assert '\0' !in raw by {
      assert forall x :: x in raw ==> x in m || x == ' ' || x in p || x in tail;
    }
    assert UntilNul(raw) == raw;
    var rest := [' '] + p + tail;
    assert raw == m + rest;
    ScanWordOf(m, rest, METHOD_WIDTH);
    ScanWordOf(p, tail, TARGET_WIDTH);
  }

  /** The literal paths the chain tests before and after the update prefix
      do not start with it. */
  lemma OtherRoutesAreNotUpdates(path: string)
    ensures StartsWith(path, UPDATE_PREFIX) ==>
      && path != "/" && path != "/index.html" && path != "/login" && path != "/login.html"
      && path != "/signup" && path != "/signup.html" && path != "/accueil" && path != "/accueil.html"
      && path != "/logout" && path != "/logout.html" && path != "/state" && path != "/reset-db"
  {
    if StartsWith(path, UPDATE_PREFIX) {
      assert path[1] == path[..7][1] == 'u';
    }
  }

  datatype Route = Page(file: string) | Update | State | ResetAll | NotFound

  /** The static pages: each accepted path and the file it serves. */
  const PAGES: map<string, string> := map[
    "/" := "index.html", "/index.html" := "index.html",
    "/login" := "login.html", "/login.html" := "login.html",
    "/signup" := "signup.html", "/signup.html" := "signup.html",
    "/accueil" := "accueil.html", "/accueil.html" := "accueil.html",
    "/logout" := "logout.html", "/logout.html" := "logout.html"
  ]

  /** The if/else-if chain of the loop: static pages by exact path, the
      update route by the 7-character prefix "/update", the state and reset
      routes by exact path, everything else (and every method but GET) not
      found. */
  function RouteOf(verb: string, path: string): (r: Route)
    ensures r.Page? <==> verb == "GET" && path in PAGES
    ensures r.Page? ==> r.file == PAGES[path]
    ensures r == Update <==> verb == "GET" && StartsWith(path, UPDATE_PREFIX)
    ensures r == State <==> verb == "GET" && path == "/state"
    ensures r == ResetAll <==> verb == "GET" && path == "/reset-db"
    ensures r == NotFound <==> (verb != "GET" ||
      (path !in PAGES && !StartsWith(path, UPDATE_PREFIX) && path != "/state" && path != "/reset-db"))
  {
    OtherRoutesAreNotUpdates(path);
    if verb != "GET" then NotFound
    else if path == "/" || path == "/index.html" then Page("index.html")
    else if path == "/login" || path == "/login.html" then Page("login.html")
    else if path == "/signup" || path == "/signup.html" then Page("signup.html")
    else if path == "/accueil" || path == "/accueil.html" then Page("accueil.html")
    else if path == "/logout" || path == "/logout.html" then Page("logout.html")
    else if StartsWith(path, UPDATE_PREFIX) then Update
    else if path == "/state" then State
    else if path == "/reset-db" then ResetAll
    else NotFound
  }

  /** The text/plain body of the /state route. */
  function StateBody(t: Table): string {
    "lumiere=" + StateOf(t, "lumiere") + ";volets=" + StateOf(t, "volets") + ";clim=" + StateOf(t, "clim")
  }

  /** Each device's part of the /state body is its stored state, or OFF
      when it has no row or its state column is NULL. */
  lemma StateBodyShowsStates(t: Table)
    ensures var shown := (n: string) => if n in t && t[n].etat.Some? then t[n].etat.value else "OFF";
      StateBody(t) == "lumiere=" + shown("lumiere") + ";volets=" + shown("volets") + ";clim=" + shown("clim")
  {
  }

  /** How a client splits the /state body: at the first two ';'. */
  function ParseStateBody(b: string): Option<(string, string, string)> {
    var i := Find(b, ';');
    if i == |b| then None
    else
      var rest := b[i + 1..];
      var j := Find(rest, ';');
      if j == |rest| then None
      else Some((b[..i], rest[..j], rest[j + 1..]))
  }

  /** Three fields joined by ';', the first two free of ';', split back. */
  lemma SplitThreeFields(a: string, b: string, c: string)
    requires ';' !in a && ';' !in b
    ensures ParseStateBody(a + ";" + b + ";" + c) == Some((a, b, c))
  {
    var rest := b + ";" + c;
    assert a + ";" + b + ";" + c == a + [';'] + rest;
    SplitAtFirst(a, rest, ';');
    assert rest == b + [';'] + c;
    SplitAtFirst(b, c, ';');
  }

  /** When no stored state holds a ';', the body splits back into the three
      "device=state" fields. */
  lemma StateBodyRoundTrip(t: Table)
    requires ';' !in StateOf(t, "lumiere") && ';' !in StateOf(t, "volets")
    ensures ParseStateBody(StateBody(t)) == Some(("lumiere=" + StateOf(t, "lumiere"),
                                                  "volets=" + StateOf(t, "volets"),
                                                  "clim=" + StateOf(t, "clim")))
  {
    var a := "lumiere=" + StateOf(t, "lumiere");
    var b := "volets=" + StateOf(t, "volets");
    var c := "clim=" + StateOf(t, "clim");
    assert ';' !in a && ';' !in b;
    assert StateBody(t) == a + ";" + b + ";" + c;
    SplitThreeFields(a, b, c);
  }

  /** What the server sends back: a static page (read from a file, which is
      not part of this model), a text/plain answer with its status, or the
      fixed 404 page. */
  datatype Reply = FilePage(file: string) | Plain(status: int, body: string) | NotFoundPage

  /** One pass of the accept loop over a received request, at time `now`,
      with `reachable` telling whether the simulator accepts the
      connection. `sent` is what the forwarder did, if it was called. */
  method Handle(db: DeviceTable, catalog: seq<Entry>, raw: string, now: nat, reachable: bool)
    returns (reply: Reply, sent: Option<Delivery>)
    modifies db
    ensures var line := ParseRequestLine(raw);
      match RouteOf(line.verb, line.target)
      case Page(f) => reply == FilePage(f) && sent == None && db.rows == old(db.rows)
      case NotFound => reply == NotFoundPage && sent == None && db.rows == old(db.rows)
      case State => reply == Plain(200, StateBody(old(db.rows))) && sent == None && db.rows == old(db.rows)
      case ResetAll => reply == Plain(200, RESET_BODY) && sent == None && db.rows == SeededAsWritten(map[], catalog, now)
      case Update =>
        var q := QueryParams(line.target);
        if q.nom == "" || q.etat == "" || q.kind == "" then
          reply == Plain(400, MISSING_PARAMS_BODY) && sent == None && db.rows == old(db.rows)
        else
          var d := DetailsOf(old(db.rows), q.nom);
          && reply == Plain(200, OK_BODY)
          && db.rows == TransitionAsWritten(old(db.rows), q.nom, q.etat, now)
          && sent == Some(Forward(d.ip, d.port, q.kind, d.input, q.etat, reachable))
  {
    var line := ParseRequestLine(raw);
    sent := None;
    match RouteOf(line.verb, line.target)
    case Page(f) =>
      reply := FilePage(f);
    case Update =>
      var q := ExtractQuery(line.target);
      if q.nom != "" && q.etat != "" && q.kind != "" {
        var d := db.GetDetails(q.nom);
        db.MajEtat(q.nom, q.etat, now);
        sent := Some(Forward(d.ip, d.port, q.kind, d.input, q.etat, reachable));
        reply := Plain(200, OK_BODY);
      } else {
        reply := Plain(400, MISSING_PARAMS_BODY);
      }
    case State =>
      var e1 := db.GetEtat("lumiere");
      var e2 := db.GetEtat("volets");
      var e3 := db.GetEtat("clim");
      reply := Plain(200, "lumiere=" + e1 + ";volets=" + e2 + ";clim=" + e3);
    case ResetAll =>
      db.ResetDB();
      db.InsertInitialDevices(catalog, now);
      reply := Plain(200, RESET_BODY);
    case NotFound =>
      reply := NotFoundPage;
  }

  /** The three test devices of the catalog's tail, all OFF at the default
      simulator address. */
  const TEST_DEVICES := [
    Entry("lumiere", DEFAULT_SIM_IP, DEFAULT_INPUT, "OFF", SCHEMA_PORT),
    Entry("volets", DEFAULT_SIM_IP, DEFAULT_INPUT, "OFF", SCHEMA_PORT),
    Entry("clim", DEFAULT_SIM_IP, DEFAULT_INPUT, "OFF", SCHEMA_PORT)
  ]

  /** The table right after seeding the three test devices. */
  function SeededTestTable(now: nat): Table {
    map["lumiere" := SeedRow(TEST_DEVICES[0], now),
        "volets" := SeedRow(TEST_DEVICES[1], now),
        "clim" := SeedRow(TEST_DEVICES[2], now)]
  }

  /** Seeding an empty table with the three test devices gives exactly
      their three rows. */
  lemma SeedTestDevices(now: nat)
    ensures Seeded(map[], TEST_DEVICES, now) == SeededTestTable(now)
  {
    var t1 := map["lumiere" := SeedRow(TEST_DEVICES[0], now)];
    var t2 := t1["volets" := SeedRow(TEST_DEVICES[1], now)];
    var t3 := t2["clim" := SeedRow(TEST_DEVICES[2], now)];
    assert Seeded(map[], TEST_DEVICES, now) == Seeded(t1, TEST_DEVICES[1..], now);
    assert Seeded(t1, TEST_DEVICES[1..], now) == Seeded(t2, TEST_DEVICES[2..], now);
    assert Seeded(t2, TEST_DEVICES[2..], now) == Seeded(t3, TEST_DEVICES[3..], now);
    assert TEST_DEVICES[3..] == [];
  }

  /** The first ON request on the seeded lumiere: one activation, and
      /state shows it ON beside the other two, still OFF. */
  lemma LumiereFirstOn(now: nat, later: nat)
    ensures var t1 := Transition(SeededTestTable(now), "lumiere", "ON", later);
      && "lumiere" in t1
      && t1["lumiere"].etat == Some("ON") && t1["lumiere"].onCount == 1 && t1["lumiere"].offCount == 0
      && StateBody(t1) == "lumiere=ON;volets=OFF;clim=OFF"
  {
    var t0 := SeededTestTable(now);
    assert "lumiere" in t0 && StateOf(t0, "lumiere") == "OFF";
    var t1 := Transition(t0, "lumiere", "ON", later);
    assert t1 == t0["lumiere" := t0["lumiere"].(etat := Some("ON"), changed := later, onCount := 1)];
    assert StateOf(t1, "lumiere") == "ON";
    assert StateOf(t1, "volets") == "OFF" && StateOf(t1, "clim") == "OFF";
  }

  /** The command for the seeded lumiere goes to the default IP on the
      schema port. */
  lemma LumiereCommand(now: nat)
    ensures var d := DetailsOf(SeededTestTable(now), "lumiere");
      Forward(d.ip, d.port, "light", d.input, "ON", true)
        == Sent(Endpoint(DEFAULT_SIM_IP, SCHEMA_PORT), "light:00000000:ON")
  {
    var d := DetailsOf(SeededTestTable(now), "lumiere");
    assert d == Details(DEFAULT_SIM_IP, DEFAULT_INPUT, SCHEMA_PORT, "OFF");
    assert WireMessage("light", DEFAULT_INPUT, "ON") == "light:00000000:ON";
  }

  /** A repeated ON request leaves the counters alone. */
  lemma RepeatedOnKeepsCount(t: Table, later: nat)
    requires "lumiere" in t && t["lumiere"].etat == Some("ON")
    ensures "lumiere" in Transition(t, "lumiere", "ON", later)
    ensures Transition(t, "lumiere", "ON", later)["lumiere"].onCount == t["lumiere"].onCount
    ensures Transition(t, "lumiere", "ON", later)["lumiere"].offCount == t["lumiere"].offCount
  {
    assert StateOf(t, "lumiere") == "ON";
  }

  /** Switching the seeded "lumiere" ON: the row shows ON with one
      activation, the command "light:00000000:ON" goes to the row's address,
      /state reports the change, and a second identical request leaves the
      counter at 1. */
  lemma LumiereScenario(now: nat)
    ensures var t0 := Seeded(map[], TEST_DEVICES, now);
      var t1 := Transition(t0, "lumiere", "ON", now + 1);
      var t2 := Transition(t1, "lumiere", "ON", now + 2);
      var d := DetailsOf(t0, "lumiere");
      && t1["lumiere"].etat == Some("ON") && t1["lumiere"].onCount == 1 && t1["lumiere"].offCount == 0
      && Forward(d.ip, d.port, "light", d.input, "ON", true)
           == Sent(Endpoint(DEFAULT_SIM_IP, SCHEMA_PORT), "light:00000000:ON")
      && StateBody(t1) == "lumiere=ON;volets=OFF;clim=OFF"
      && t2["lumiere"].onCount == 1 && t2["lumiere"].offCount == 0
  {
    SeedTestDevices(now);
    LumiereFirstOn(now, now + 1);
    LumiereCommand(now);
    RepeatedOnKeepsCount(Transition(SeededTestTable(now), "lumiere", "ON", now + 1), now + 2);
  }
}
