/** clientIP in internal/api/ratelimit.go: which address a request is limited by. The host part of
    RemoteAddr and the comma-separated, trimmed entries of X-Forwarded-For are given; what
    net.ParseIP accepts and which addresses are trusted proxies are parameters.
 */
module ClientAddress {

  datatype Network = Network(anyTrusted: bool, parses: string -> bool, inTrusted: string -> bool) {
    /** net.ParseIP rejects the empty text. */
    ghost predicate Valid() {
      !parses("")
    }

    /** An entry one of our own proxies signed with. */
    predicate Hop(entry: string) {
      parses(entry) && inTrusted(entry)
    }

    /** Whether the forwarding header is looked at. */
    predicate Believes(host: string, entries: seq<string>) {
      anyTrusted && Hop(host) && entries != []
    }
  }

  /** `i` is the rightmost entry that none of our proxies signed with. */
  ghost predicate RightmostStranger(net: Network, entries: seq<string>, i: int) {
    0 <= i < |entries| && !net.Hop(entries[i]) && forall j :: i < j < |entries| ==> net.Hop(entries[j])
  }

  ghost predicate AllHops(net: Network, entries: seq<string>) {
    forall j :: 0 <= j < |entries| ==> net.Hop(entries[j])
  }

  /** The caller's address by definition, whatever way it is found. */
  ghost predicate IsCaller(net: Network, host: string, entries: seq<string>, ip: string) {
    if !net.Believes(host, entries) then ip == host
    else if AllHops(net, entries) then ip == entries[|entries| - 1]
    else exists i :: RightmostStranger(net, entries, i) && ip == if net.parses(entries[i]) then entries[i] else host
  }

  method ClientIP(net: Network, host: string, entries: seq<string>) returns (ip: string)
    requires net.Valid()
    ensures IsCaller(net, host, entries, ip)
    ensures !net.anyTrusted || !net.parses(host) || !net.inTrusted(host) ==> ip == host
  {
    if !net.anyTrusted {
      return host;
    }
    if !net.parses(host) || !net.inTrusted(host) {
      return host;
    }
    if entries == [] {
      return host;
    }
    var last := "";
    var i := |entries| - 1;
    while i >= 0
      invariant -1 <= i < |entries|
      invariant forall j :: i < j < |entries| ==> net.Hop(entries[j])
      invariant last == if i == |entries| - 1 then "" else entries[|entries| - 1]
    {
      var entry := entries[i];
      if !net.parses(entry) {
        assert RightmostStranger(net, entries, i);
        return host;
      }
      if !net.inTrusted(entry) {
        assert RightmostStranger(net, entries, i);
        return entry;
      }
      if last == "" {
        last := entry;
      }
      i := i - 1;
    }
    return last;
  }

  /** The definition leaves no choice. */
  lemma CallerIsUnique(net: Network, host: string, entries: seq<string>, a: string, b: string)
    requires IsCaller(net, host, entries, a) && IsCaller(net, host, entries, b)
    ensures a == b
  {
    if net.Believes(host, entries) && !AllHops(net, entries) {
      var i :| RightmostStranger(net, entries, i) && a == if net.parses(entries[i]) then entries[i] else host;
      var j :| RightmostStranger(net, entries, j) && b == if net.parses(entries[j]) then entries[j] else host;
      assert i == j;
    }
  }

  lemma StrangerShifts(net: Network, left: seq<string>, right: seq<string>, i: int)
    requires !AllHops(net, right)
    ensures RightmostStranger(net, left + right, i) <==> RightmostStranger(net, right, i - |left|)
  {
    var bad :| 0 <= bad < |right| && !net.Hop(right[bad]);
    assert (left + right)[|left| + bad] == right[bad];
    assert forall j :: 0 <= j < |right| ==> right[j] == (left + right)[|left| + j];
    assert forall j :: |left| <= j < |left + right| ==> (left + right)[j] == right[j - |left|];
  }

  lemma LeftAside(net: Network, host: string, left: seq<string>, right: seq<string>, ip: string)
    requires !AllHops(net, right)
    ensures IsCaller(net, host, left + right, ip) <==> IsCaller(net, host, right, ip)
  {
    forall i ensures RightmostStranger(net, left + right, i) <==> RightmostStranger(net, right, i - |left|) {
      StrangerShifts(net, left, right, i);
    }
    var bad :| 0 <= bad < |right| && !net.Hop(right[bad]);
    assert (left + right)[|left| + bad] == right[bad];
    assert forall j :: 0 <= j < |right| && RightmostStranger(net, right, j) ==>
        RightmostStranger(net, left + right, j + |left|) && (left + right)[j + |left|] == right[j];
  }

  /** Nothing a caller writes left of the first entry our proxies did not sign changes the answer. */
  lemma EntriesToTheLeftAreIgnored(net: Network, host: string, left: seq<string>, other: seq<string>,
                                   right: seq<string>, ip: string)
    requires !AllHops(net, right)
    ensures IsCaller(net, host, left + right, ip) <==> IsCaller(net, host, other + right, ip)
  {
    LeftAside(net, host, left, right, ip);
    LeftAside(net, host, other, right, ip);
  }

  /** The answer is an address exactly when RemoteAddr's host is one: the header never supplies
      text that does not parse, but an unparsable host is returned as it stands. */
  lemma AnswerParsesIff(net: Network, host: string, entries: seq<string>, ip: string)
    requires net.Valid() && IsCaller(net, host, entries, ip)
    ensures net.parses(ip) <==> net.parses(host)
  {
    if net.Believes(host, entries) && AllHops(net, entries) {
      assert net.Hop(entries[|entries| - 1]);
    }
  }

  /** So the promise never to return text that failed to parse is not kept for every request. */
  lemma AnswerMayNotParse()
    ensures exists net: Network, host, ip :: net.Valid() && IsCaller(net, host, [], ip) && !net.parses(ip)
  {
    var net := Network(true, s => s == "10.0.0.1", s => true);
    assert IsCaller(net, "pipe", [], "pipe");
  }
}
