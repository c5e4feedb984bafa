/** The decision logic of envoyer_au_simulateur in domoserver.c: which
    endpoint the command goes to, and the one message sent there. Whether the
    TCP connection succeeds is the environment's answer, so it comes in as a
    parameter. */
module Forwarder {
  import opened CStrings
  import Registry

  /** char message[256] filled by snprintf keeps at most 255 characters. */
  const MESSAGE_CAPACITY := 255

  datatype Endpoint = Endpoint(ip: string, port: int)

  /** Either the message went out to the endpoint, or connect() failed and
      nothing was sent. */
  datatype Delivery = Sent(to: Endpoint, message: string) | Unreachable(to: Endpoint)

  /** The endpoint actually used: an empty IP and a port that is not
      positive fall back to the simulator's defaults. */
  function Resolve(ip: string, port: int): (e: Endpoint)
    ensures e.ip == (if ip == "" then Registry.DEFAULT_SIM_IP else ip)
    ensures e.port == (if port > 0 then port else Registry.DEFAULT_SIM_PORT)
    ensures e.ip != "" && e.port > 0
  {
    Endpoint(if |ip| > 0 then ip else Registry.DEFAULT_SIM_IP,
             if port > 0 then port else Registry.DEFAULT_SIM_PORT)
  }

  /** The command "type:input:etat", cut to the buffer's capacity. */
  function WireMessage(kind: string, input: string, etat: string): (m: string)
    ensures |m| <= MESSAGE_CAPACITY
    ensures StartsWith(kind + ":" + input + ":" + etat, m)
    ensures |kind + ":" + input + ":" + etat| <= MESSAGE_CAPACITY ==> m == kind + ":" + input + ":" + etat
    ensures |kind + ":" + input + ":" + etat| > MESSAGE_CAPACITY ==> |m| == MESSAGE_CAPACITY
  {
    var full := kind + ":" + input + ":" + etat;
    if |full| <= MESSAGE_CAPACITY then full else full[..MESSAGE_CAPACITY]
  }

  /** envoyer_au_simulateur(ip, port, type, input, etat), given whether the
      resolved endpoint accepts the connection. */
  function Forward(ip: string, port: int, kind: string, input: string, etat: string, reachable: bool): (d: Delivery)
    ensures d.to == Resolve(ip, port)
    ensures d.Sent? <==> reachable
    ensures d.Sent? ==> d.message == WireMessage(kind, input, etat)
  {
    var to := Resolve(ip, port);
    if reachable then Sent(to, WireMessage(kind, input, etat)) else Unreachable(to)
  }

  /** How the receiving end splits a command: the text before the first
      ':', the text between it and the next ':', and the rest. */
  function ParseCommand(m: string): Option<(string, string, string)> {
    var i := Find(m, ':');
    if i == |m| then None
    else
      var rest := m[i + 1..];
      var j := Find(rest, ':');
      if j == |rest| then None
      else Some((m[..i], rest[..j], rest[j + 1..]))
  }

  /** A command that fits the buffer, whose type and input code hold no
      ':', is read back as exactly the three fields it was built from. */
  lemma CommandRoundTrip(kind: string, input: string, etat: string)
    requires ':' !in kind && ':' !in input
    requires |kind| + |input| + |etat| + 2 <= MESSAGE_CAPACITY
    ensures ParseCommand(WireMessage(kind, input, etat)) == Some((kind, input, etat))
  {
    var full := kind + ":" + input + ":" + etat;
    assert WireMessage(kind, input, etat) == full;
    var rest := input + ":" + etat;
    assert full == kind + ":" + rest;
    SplitAtFirst(kind, rest, ':');
    SplitAtFirst(input, etat, ':');
  }
}
