/** extract_query of domoserver.c: the part of the request target after the
    first '?' is cut into '&'-separated tokens the way strtok does it, and the
    tokens "nom=", "etat=" and "type=" are url-decoded into the three
    outputs. */
module Query {
  import opened CStrings
  import opened UrlCodec

  const NOM_KEY := "nom="
  const ETAT_KEY := "etat="
  const TYPE_KEY := "type="

  /** The copy of the query string goes into a 512-byte buffer, so at most
      511 characters of it are tokenised. */
  const QUERY_CAPACITY := 511

  /** The part of the query string that fits the buffer. */
  function Clipped(q: string): (r: string)
    ensures |r| <= QUERY_CAPACITY && StartsWith(q, r)
    ensures |q| <= QUERY_CAPACITY ==> r == q
  {
    if |q| <= QUERY_CAPACITY then q else q[..QUERY_CAPACITY]
  }

  /** The three outputs of extract_query; `kind` is the "type" parameter. */
  datatype Params = Params(nom: string, etat: string, kind: string)

  /** The tokens strtok(s, "&") returns one after another: the maximal
      non-empty runs of characters other than '&'. */
  function Tokens(s: string): (ts: seq<string>)
    ensures forall i :: 0 <= i < |ts| ==> ts[i] != [] && '&' !in ts[i]
    decreases |s|
  {
    if s == [] then []
    else if s[0] == '&' then Tokens(s[1..])
    else
      var n := Find(s, '&');
      [s[..n]] + Tokens(s[n..])
  }

  /** Tokens written back with one '&' between each two. */
  function Join(ts: seq<string>): string
  {
    if ts == [] then ""
    else if |ts| == 1 then ts[0]
    else ts[0] + "&" + Join(ts[1..])
  }

  /** strtok on a token followed by '&' and more text. */
  lemma TokensCons(t: string, rest: string)
    requires t != [] && '&' !in t
    ensures Tokens(t + "&" + rest) == [t] + Tokens(rest)
  {
    var s := t + "&" + rest;
    assert s == t + ("&" + rest);
    FindAfter(t, "&" + rest, '&');
    assert s[0] == t[0];
    assert s[..|t|] == t;
    assert s[|t|..] == "&" + rest;
    assert ("&" + rest)[1..] == rest;
  }

  /** strtok on a single token. */
  lemma TokensSingle(t: string)
    requires t != [] && '&' !in t
    ensures Tokens(t) == [t]
  {
    FindAfter(t, [], '&');
    assert t + [] == t;
    assert t[..|t|] == t;
    assert t[|t|..] == [];
  }

  /** strtok gives back exactly the tokens a query string was built from. */
  lemma {:induction false} TokensOfJoin(ts: seq<string>)
    requires forall i :: 0 <= i < |ts| ==> ts[i] != [] && '&' !in ts[i]
    ensures Tokens(Join(ts)) == ts
  {
    if |ts| == 1 {
      TokensSingle(ts[0]);
    } else if |ts| > 1 {
      TokensCons(ts[0], Join(ts[1..]));
      TokensOfJoin(ts[1..]);
    }
  }

  /** What one output buffer holds after the tokens ts have been processed:
      the value of the last token carrying the key, url-decoded and read
      back as a C string, or "" when no token carries it. */
  function Field(ts: seq<string>, key: string): string
  {
    if ts == [] then ""
    else
      var t := ts[|ts| - 1];
      if StartsWith(t, key) then UntilNul(Decoded(t[|key|..]))
      else Field(ts[..|ts| - 1], key)
  }

  function ParamsOf(ts: seq<string>): Params
  {
    Params(Field(ts, NOM_KEY), Field(ts, ETAT_KEY), Field(ts, TYPE_KEY))
  }

  /** extract_query's result for a request target. */
  function QueryParams(path: string): Params
  {
    var q := Find(path, '?');
    if q == |path| then Params("", "", "")
    else ParamsOf(Tokens(Clipped(path[q + 1..])))
  }

  lemma FieldSnoc(ts: seq<string>, t: string, key: string)
    ensures Field(ts + [t], key) ==
      if StartsWith(t, key) then UntilNul(Decoded(t[|key|..])) else Field(ts, key)
  {
    var ts' := ts + [t];
    assert ts'[|ts'| - 1] == t;
    assert ts'[..|ts'| - 1] == ts;
  }

  /** The three keys start with different letters, so a token carries at
      most one of them. */
  lemma KeysExclusive(t: string)
    ensures StartsWith(t, NOM_KEY) ==> !StartsWith(t, ETAT_KEY) && !StartsWith(t, TYPE_KEY)
    ensures StartsWith(t, ETAT_KEY) ==> !StartsWith(t, TYPE_KEY)
  {
    if StartsWith(t, NOM_KEY) {
      assert t[0] == t[..4][0] == 'n';
    }
    if StartsWith(t, ETAT_KEY) {
      assert t[0] == t[..5][0] == 'e';
    }
    if StartsWith(t, TYPE_KEY) {
      assert t[0] == t[..5][0] == 't';
    }
  }

  /** How one more token changes the outputs. */
  lemma ParamsStep(ts: seq<string>, t: string)
    ensures ParamsOf(ts + [t]) ==
      if StartsWith(t, NOM_KEY) then ParamsOf(ts).(nom := UntilNul(Decoded(t[4..])))
      else if StartsWith(t, ETAT_KEY) then ParamsOf(ts).(etat := UntilNul(Decoded(t[5..])))
      else if StartsWith(t, TYPE_KEY) then ParamsOf(ts).(kind := UntilNul(Decoded(t[5..])))
      else ParamsOf(ts)
  {
    FieldSnoc(ts, t, NOM_KEY);
    FieldSnoc(ts, t, ETAT_KEY);
    FieldSnoc(ts, t, TYPE_KEY);
    KeysExclusive(t);
  }

  /** The strtok loop of extract_query. */
  method ExtractQuery(path: string) returns (p: Params)
    ensures p == QueryParams(path)
    ensures '?' !in path ==> p == Params("", "", "")
  {
    p := Params("", "", "");
    var q := Find(path, '?');
    if q == |path| {
      return;
    }
    var ts := Tokens(Clipped(path[q + 1..]));
    var i := 0;
    while i < |ts|
      invariant 0 <= i <= |ts|
      invariant p == ParamsOf(ts[..i])
    {
      var token := ts[i];
      assert ts[..i + 1] == ts[..i] + [token];
      ParamsStep(ts[..i], token);
      if StartsWith(token, NOM_KEY) {
        var v := UrlDecode(token[4..]);
        p := p.(nom := UntilNul(v));
      } else if StartsWith(token, ETAT_KEY) {
        var v := UrlDecode(token[5..]);
        p := p.(etat := UntilNul(v));
      } else if StartsWith(token, TYPE_KEY) {
        var v := UrlDecode(token[5..]);
        p := p.(kind := UntilNul(v));
      }
      i := i + 1;
    }
    assert ts[..|ts|] == ts;
  }

  /** When a key occurs several times, the last occurrence wins. */
  lemma {:induction false} LastOccurrenceWins(ts: seq<string>, key: string, j: nat)
    requires j < |ts| && StartsWith(ts[j], key)
    requires forall k :: j < k < |ts| ==> !StartsWith(ts[k], key)
    ensures Field(ts, key) == UntilNul(Decoded(ts[j][|key|..]))
    decreases |ts|
  {
    if j < |ts| - 1 {
      var init := ts[..|ts| - 1];
      assert forall k :: j < k < |init| ==> init[k] == ts[k];
      LastOccurrenceWins(init, key, j);
    }
  }

  /** A key no token carries leaves its output empty. */
  lemma {:induction false} MissingKeyIsEmpty(ts: seq<string>, key: string)
    requires forall k :: 0 <= k < |ts| ==> !StartsWith(ts[k], key)
    ensures Field(ts, key) == ""
    decreases |ts|
  {
    if ts != [] {
      MissingKeyIsEmpty(ts[..|ts| - 1], key);
    }
  }

  /** A token with some other key, wherever it stands, changes nothing. */
  lemma {:induction false} OtherTokenIgnored(before: seq<string>, t: string, after: seq<string>, key: string)
    requires !StartsWith(t, key)
    ensures Field(before + [t] + after, key) == Field(before + after, key)
    decreases |after|
  {
    if after == [] {
      assert (before + [t] + after)[..|before| + 1 - 1] == before;
      assert before + after == before;
    } else {
      var last := after[|after| - 1];
      var init := after[..|after| - 1];
      assert (before + [t] + after)[..|before + [t] + after| - 1] == before + [t] + init;
      assert (before + after)[..|before + after| - 1] == before + init;
      OtherTokenIgnored(before, t, init, key);
    }
  }

  /** The same facts for a whole request target: for a query string built
      from tokens that fits the buffer, each output is the decoded value of
      the last token that carries its key. */
  lemma QueryOfJoinedTokens(prefix: string, ts: seq<string>)
    requires '?' !in prefix
    requires forall i :: 0 <= i < |ts| ==> ts[i] != [] && '&' !in ts[i]
    requires |Join(ts)| <= QUERY_CAPACITY
    ensures QueryParams(prefix + "?" + Join(ts)) == ParamsOf(ts)
  {
    var path := prefix + "?" + Join(ts);
    assert path == prefix + ("?" + Join(ts));
    FindAfter(prefix, "?" + Join(ts), '?');
    assert path[|prefix| + 1..] == Join(ts);
    TokensOfJoin(ts);
  }
}
