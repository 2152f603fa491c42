/**
 * The supplychain daemon's circuit proposal: resolving the requested member ids against
 * the node registry, building the member list and one scabbard service per member, and
 * the paging parameters of the supplychain listing.
 */
module SupplychainRoutes {
  import opened Types
  import opened Text

  /** A node of the registry: its identity and endpoints. */
  datatype Node = Node(identity: string, endpoints: seq<string>)

  /** A member of the proposed circuit. */
  datatype SplinterNode = SplinterNode(nodeId: string, endpoints: seq<string>)

  /**
   * A service of the proposed circuit. Each argument value is a list of strings, which
   * the daemon sends serialised as a JSON array.
   */
  datatype SplinterService = SplinterService(
    serviceId: string,
    serviceType: string,
    allowedNodes: seq<string>,
    arguments: seq<(string, seq<string>)>)

  /** The errors of the REST handlers. */
  datatype ApiError = BadRequest(message: string) | InternalError(message: string)

  /** The answer of the node registry: the listed nodes, or the error body of a failed request. */
  datatype RegistryResponse =
    | Listed(nodes: seq<Node>)
    | BadRequestStatus(body: string)
    | OtherStatus(body: string)

  /** The answer of `propose_supplychain`, up to the payload: a rejection or the circuit's parts. */
  datatype Proposal =
    | BadRequestResponse(message: string)
    | InternalErrorResponse
    | Circuit(members: seq<SplinterNode>, roster: seq<SplinterService>)

  // ---------- fetch_node_information ----------

  /** The first listed node with the identity, as `iter().find`. */
  function FindNode(listed: seq<Node>, id: string): (r: Option<Node>)
    ensures r.Some? ==> r.value.identity == id
    ensures r.Some? ==> exists i :: 0 <= i < |listed| && listed[i] == r.value
                                  && forall j :: 0 <= j < i ==> listed[j].identity != id
    ensures r.None? <==> forall j :: 0 <= j < |listed| ==> listed[j].identity != id
  {
    if |listed| == 0 then None
    else if listed[0].identity == id then Some(listed[0])
    else
      var r := FindNode(listed[1..], id);
      assert r.Some? ==> exists i :: 0 <= i < |listed| && listed[i] == r.value
                                    && forall j :: 0 <= j < i ==> listed[j].identity != id by {
        if r.Some? {
          var i :| 0 <= i < |listed[1..]| && listed[1..][i] == r.value
                   && forall j :: 0 <= j < i ==> listed[1..][j].identity != id;
          assert listed[i + 1] == r.value;
          assert forall j :: 1 <= j < i + 1 ==> listed[j] == listed[1..][j - 1];
        }
      }
      r
  }

  /** The message of the error for an id the registry does not know. */
  function NotFoundMessage(id: string): string {
    "Could not find node with id " + id
  }

  /**
   * `fetch_node_information`: for a listing, the first listed node of each requested id,
   * in request order, or a bad request naming the first id that is missing; for a failed
   * request, the error its status calls for, carrying the body.
   */
  method FetchNodeInformation(nodeIds: seq<string>, response: RegistryResponse) returns (r: Result<seq<Node>, ApiError>)
    ensures response.BadRequestStatus? ==> r == Err(BadRequest(response.body))
    ensures response.OtherStatus? ==> r == Err(InternalError(response.body))
    ensures response.Listed? ==>
              (r.Ok? <==> forall k :: 0 <= k < |nodeIds| ==> FindNode(response.nodes, nodeIds[k]).Some?)
    ensures response.Listed? && r.Ok? ==>
              |r.value| == |nodeIds| && forall k :: 0 <= k < |nodeIds| ==> FindNode(response.nodes, nodeIds[k]) == Some(r.value[k])
    ensures response.Listed? && r.Err? ==>
              exists k :: 0 <= k < |nodeIds| && FindNode(response.nodes, nodeIds[k]).None?
                          && r.error == BadRequest(NotFoundMessage(nodeIds[k]))
                          && forall j :: 0 <= j < k ==> FindNode(response.nodes, nodeIds[j]).Some?
  {
    match response
    case BadRequestStatus(body) => r := Err(BadRequest(body));
    case OtherStatus(body) => r := Err(InternalError(body));
    case Listed(listed) =>
      var acc: seq<Node> := [];
      var k := 0;
      while k < |nodeIds|
        invariant 0 <= k <= |nodeIds|
        invariant |acc| == k
        invariant forall j :: 0 <= j < k ==> FindNode(listed, nodeIds[j]) == Some(acc[j])
      {
        var found := FindNode(listed, nodeIds[k]);
        if found.None? {
          r := Err(BadRequest(NotFoundMessage(nodeIds[k])));
          return;
        }
        acc := acc + [found.value];
        k := k + 1;
      }
      r := Ok(acc);
  }

  // ---------- propose_supplychain ----------

  /** The member list: the fetched nodes in request order, then the local node. */
  function Members(nodes: seq<Node>, local: Node): (members: seq<SplinterNode>)
    ensures |members| == |nodes| + 1
    ensures forall i :: 0 <= i < |nodes| ==> members[i] == SplinterNode(nodes[i].identity, nodes[i].endpoints)
    ensures members[|nodes|] == SplinterNode(local.identity, local.endpoints)
  {
    seq(|nodes|, i requires 0 <= i < |nodes| => SplinterNode(nodes[i].identity, nodes[i].endpoints))
      + [SplinterNode(local.identity, local.endpoints)]
  }

  /** `format!("gr{:02}", i)`: `gr` and the member number, zero-padded to two digits. */
  function ServiceIdFor(i: nat): (id: string)
    ensures |id| >= 4 && id[..2] == "gr"
  {
    if i < 10 then "gr" + ("0" + NatToString(i)) else "gr" + NatToString(i)
  }

  /**
   * After `gr` come decimal digits that spell the member number: two of them below 100,
   * and from 10 up no leading zero, so the numeral is the shortest one of at least two digits.
   */
  lemma ServiceIdForDigits(i: nat)
    ensures AllDigits(ServiceIdFor(i)[2..]) && DigitsValue(ServiceIdFor(i)[2..]) == i
    ensures i < 100 ==> |ServiceIdFor(i)| == 4
    ensures i >= 10 ==> ServiceIdFor(i)[2] != '0'
  {
    var id := ServiceIdFor(i);
    NatToStringValue(i);
    if i < 10 {
      LeadingZeroValue(NatToString(i));
      assert id[2..] == "0" + NatToString(i);
    } else {
      assert id[2..] == NatToString(i);
      if i < 100 {
        assert NatToString(i) == NatToString(i / 10) + [DigitChar(i % 10)];
      }
    }
  }

  /** Different member numbers give different service ids. */
  lemma ServiceIdInjective(i: nat, j: nat)
    ensures ServiceIdFor(i) == ServiceIdFor(j) <==> i == j
  {
    ServiceIdForDigits(i);
    ServiceIdForDigits(j);
  }

  /** The service ids of `n` members, in member order. */
  function ServiceIds(n: nat): (ids: seq<string>)
    ensures |ids| == n && forall i :: 0 <= i < n ==> ids[i] == ServiceIdFor(i)
  {
    seq(n, i requires 0 <= i < n => ServiceIdFor(i))
  }

  /** `filter(|other| other != own)`: the ids other than `own`, in order. */
  function PeerServices(ids: seq<string>, own: string): (peers: seq<string>)
    ensures forall x :: x in peers <==> x in ids && x != own
    ensures |peers| <= |ids|
  {
    if |ids| == 0 then []
    else if ids[0] == own then PeerServices(ids[1..], own)
    else [ids[0]] + PeerServices(ids[1..], own)
  }

  /** Filtering commutes with concatenation. */
  lemma {:induction false} PeerServicesAppend(a: seq<string>, b: seq<string>, own: string)
    ensures PeerServices(a + b, own) == PeerServices(a, own) + PeerServices(b, own)
    decreases |a|
  {
    if |a| == 0 {
      assert a + b == b;
    } else {
      assert (a + b)[1..] == a[1..] + b;
      PeerServicesAppend(a[1..], b, own);
    }
  }

  /** Filtering out an id that does not occur changes nothing. */
  lemma {:induction false} PeerServicesAbsent(ids: seq<string>, own: string)
    requires own !in ids
    ensures PeerServices(ids, own) == ids
    decreases |ids|
  {
    if |ids| > 0 {
      PeerServicesAbsent(ids[1..], own);
    }
  }

  /** In a list without repeats, the peers of the entry at `i` are all the other entries, in order. */
  lemma {:induction false} PeerServicesDistinct(ids: seq<string>, i: nat)
    requires i < |ids|
    requires forall j :: 0 <= j < |ids| && j != i ==> ids[j] != ids[i]
    ensures PeerServices(ids, ids[i]) == ids[..i] + ids[i + 1..]
    decreases |ids|
  {
    var own := ids[i];
    var tail := ids[1..];
    if i == 0 {
      assert own !in tail by {
        forall k | 0 <= k < |tail| ensures tail[k] != own {
          assert tail[k] == ids[k + 1];
        }
      }
      PeerServicesAbsent(tail, own);
      assert ids[..0] + ids[1..] == tail;
    } else {
      assert tail[i - 1] == own;
      forall j | 0 <= j < |tail| && j != i - 1 ensures tail[j] != tail[i - 1] {
        assert tail[j] == ids[j + 1];
      }
      PeerServicesDistinct(tail, i - 1);
      assert ids[..i] == [ids[0]] + tail[..i - 1];
      assert ids[i + 1..] == tail[i..];
    }
  }

  /** The peers of service `i` are the ids of all the other members, in member order. */
  lemma PeersAreTheOthers(n: nat, i: nat)
    requires i < n
    ensures PeerServices(ServiceIds(n), ServiceIdFor(i)) == ServiceIds(n)[..i] + ServiceIds(n)[i + 1..]
  {
    var ids := ServiceIds(n);
    forall j | 0 <= j < n && j != i ensures ids[j] != ids[i] {
      ServiceIdInjective(j, i);
    }
    PeerServicesDistinct(ids, i);
  }

  /** The arguments of every service: the admin keys, then the peer services. */
  function ServiceArguments(adminKey: string, peers: seq<string>): seq<(string, seq<string>)> {
    [("admin_keys", [adminKey]), ("peer_services", peers)]
  }

  /**
   * The roster loop of `propose_supplychain`: one scabbard service per member, numbered
   * in member order, allowed on exactly that member's node, with the admin key and the
   * ids of all the other services as arguments.
   */
  method BuildRoster(members: seq<SplinterNode>, adminKey: string) returns (roster: seq<SplinterService>)
    ensures |roster| == |members|
    ensures forall i :: 0 <= i < |members| ==>
              && roster[i].serviceId == ServiceIdFor(i)
              && roster[i].serviceType == "scabbard"
              && roster[i].allowedNodes == [members[i].nodeId]
              && roster[i].arguments == ServiceArguments(adminKey, PeerServices(ServiceIds(|members|), ServiceIdFor(i)))
  {
    var allServiceIds := ServiceIds(|members|);
    var scabbardArgs := [("admin_keys", [adminKey])];
    roster := [];
    for i := 0 to |members|
      invariant |roster| == i
      invariant forall k :: 0 <= k < i ==> roster[k] == RosterService(members, adminKey, k)
    {
      var serviceId := ServiceIdFor(i);
      var peerServices := PeerServices(allServiceIds, serviceId);
      var serviceArgs := scabbardArgs + [("peer_services", peerServices)];
      assert serviceArgs == ServiceArguments(adminKey, peerServices);
      var service := SplinterService(serviceId, "scabbard", [members[i].nodeId], serviceArgs);
      assert service == RosterService(members, adminKey, i);
      roster := roster + [service];
    }
  }

  /** The service the roster loop builds for member `i`. */
  function RosterService(members: seq<SplinterNode>, adminKey: string, i: nat): (service: SplinterService)
    requires i < |members|
    ensures service.serviceId == ServiceIdFor(i) && service.serviceType == "scabbard"
    ensures service.allowedNodes == [members[i].nodeId]
    ensures service.arguments == ServiceArguments(adminKey, PeerServices(ServiceIds(|members|), ServiceIdFor(i)))
  {
    var serviceId := ServiceIdFor(i);
    SplinterService(serviceId, "scabbard", [members[i].nodeId],
                    ServiceArguments(adminKey, PeerServices(ServiceIds(|members|), serviceId)))
  }

  /**
   * `propose_supplychain` up to the circuit's parts: a registry failure answers as a bad
   * request with its message, or as an internal error; otherwise the members are the
   * fetched nodes and the local node, with one service each.
   */
  method ProposeSupplychain(nodeIds: seq<string>, response: RegistryResponse, local: Node, adminKey: string)
    returns (p: Proposal)
    ensures response.BadRequestStatus? ==> p == BadRequestResponse(response.body)
    ensures response.OtherStatus? ==> p == InternalErrorResponse
    ensures response.Listed? ==>
              (p.Circuit? <==> forall k :: 0 <= k < |nodeIds| ==> FindNode(response.nodes, nodeIds[k]).Some?)
    ensures response.Listed? && !p.Circuit? ==>
              exists k :: 0 <= k < |nodeIds| && FindNode(response.nodes, nodeIds[k]).None?
                          && p == BadRequestResponse(NotFoundMessage(nodeIds[k]))
    ensures p.Circuit? ==>
              && |p.members| == |nodeIds| + 1 && |p.roster| == |p.members|
              && (forall k :: 0 <= k < |nodeIds| ==> p.members[k].nodeId == nodeIds[k])
              && p.members[|nodeIds|] == SplinterNode(local.identity, local.endpoints)
              && forall i :: 0 <= i < |p.members| ==>
                   && p.roster[i].serviceId == ServiceIdFor(i)
                   && p.roster[i].serviceType == "scabbard"
                   && p.roster[i].allowedNodes == [p.members[i].nodeId]
                   && p.roster[i].arguments == ServiceArguments(adminKey, ServiceIds(|p.members|)[..i] + ServiceIds(|p.members|)[i + 1..])
  {
    var fetched := FetchNodeInformation(nodeIds, response);
    match fetched
    case Err(BadRequest(message)) => p := BadRequestResponse(message);
    case Err(InternalError(_)) => p := InternalErrorResponse;
    case Ok(nodes) =>
      var members := Members(nodes, local);
      var roster := BuildRoster(members, adminKey);
      forall i | 0 <= i < |members|
        ensures PeerServices(ServiceIds(|members|), ServiceIdFor(i)) == ServiceIds(|members|)[..i] + ServiceIds(|members|)[i + 1..]
      {
        PeersAreTheOthers(|members|, i);
      }
      p := Circuit(members, roster);
  }

  // ---------- list_supplychains ----------

  /** The largest `usize`, on a 64-bit target. */
  const UsizeMax: nat := 0xFFFF_FFFF_FFFF_FFFF

  /**
   * `str::parse::<usize>`: an optional `+` and then at least one decimal digit, and
   * nothing else, for a value that fits in a `usize`.
   */
  function ParseUsize(s: string): (r: Option<nat>)
    ensures r.Some? ==> r.value <= UsizeMax
    ensures |s| == 0 ==> r.None?
  {
    var digits := if |s| > 0 && s[0] == '+' then s[1..] else s;
    if |digits| == 0 || !AllDigits(digits) then None
    else if DigitsValue(digits) <= UsizeMax then Some(DigitsValue(digits))
    else None
  }

  /** Printing a `usize` and parsing it back gives it back. */
  lemma ParseUsizeRoundTrip(n: nat)
    requires n <= UsizeMax
    ensures ParseUsize(NatToString(n)) == Some(n)
  {
    NatToStringValue(n);
    assert NatToString(n)[0] != '+';
  }

  /**
   * A paging parameter: the query's value when it parses as a `usize`; otherwise, and when
   * the query has none, the default, which the source takes by printing and parsing it.
   */
  function PagingParam(query: map<string, string>, key: string, default: nat): nat {
    var text := if key in query then query[key] else NatToString(default);
    match ParseUsize(text)
    case Some(v) => v
    case None => default
  }

  /** The parameter falls back to the default exactly when the query has no parsable value. */
  lemma PagingParamFallback(query: map<string, string>, key: string, default: nat)
    requires default <= UsizeMax
    ensures key !in query ==> PagingParam(query, key, default) == default
    ensures key in query && ParseUsize(query[key]).None? ==> PagingParam(query, key, default) == default
    ensures key in query && ParseUsize(query[key]).Some? ==> PagingParam(query, key, default) == ParseUsize(query[key]).value
  {
    if key !in query {
      ParseUsizeRoundTrip(default);
    }
  }

  /** `list_supplychains`: the offset and the limit of the listing. */
  function ListPaging(query: map<string, string>, defaultOffset: nat, defaultLimit: nat): (nat, nat) {
    (PagingParam(query, "offset", defaultOffset), PagingParam(query, "limit", defaultLimit))
  }

  /** A number too large for a `usize` does not parse. */
  lemma ParseUsizeOverflow(n: nat)
    requires n > UsizeMax
    ensures ParseUsize(NatToString(n)) == None
  {
    NatToStringValue(n);
    assert NatToString(n)[0] != '+';
  }

  /** Concrete cases of the parameter parsing: a plus sign is allowed, a minus sign and junk are not. */
  lemma ParseUsizeExamples()
    ensures ParseUsize("+5") == Some(5)
    ensures ParseUsize("+") == None
    ensures ParseUsize("-1") == None
    ensures ParseUsize("1a") == None
  {
    assert "+5"[1..] == "5";
    assert DigitsValue("5") == 5 by {
      assert "5"[..0] == "";
    }
    assert "+"[1..] == "";
    assert !IsDigit("-1"[0]);
    assert !IsDigit("1a"[1]);
  }
}
