/** Which Traefik route files a node should have: strict for its own services, best effort
    for its peers'. */
module Routes {
  import opened Types
  import opened Ordering

  /** What resolving the routing metadata of a service gives. */
  datatype HostName = Invalid | NoRoute | Host(name: string)

  /** A service as routing sees it: no guest address is "", no health check port is 0. */
  datatype Service = Service(name: string, host: HostName, guestIP: string, forwards: seq<PortForward>, healthPort: int)

  datatype Peer = Peer(node: string, hostIP: string, services: seq<Service>)

  datatype Route = Route(service: string, host: string, address: string, port: int)

  /** Files to write and who claimed each hostname. */
  datatype Rendered = Rendered(files: map<string, Route>, owner: map<string, string>)

  const SUFFIX := ".yaml"
  const REMOTE := "remote-"

  function FileName(service: string): string {
    service + SUFFIX
  }

  function RemoteFileName(service: string): string {
    REMOTE + service + SUFFIX
  }

  function BackendPort(s: Service): int {
    if |s.forwards| > 0 then s.forwards[0].vmPort
    else if s.healthPort > 0 then s.healthPort
    else 0
  }

  // ----------------------------------------------------------------- own services

  /** One service of renderLocal; None is the error that fails the whole sync. */
  function AddLocal(r: Rendered, s: Service): Option<Rendered> {
    match s.host
    case Invalid => None
    case NoRoute => Some(r)
    case Host(h) =>
      if s.guestIP == "" || BackendPort(s) == 0 || h in r.owner then None
      else Some(Rendered(r.files[FileName(s.name) := Route(s.name, h, s.guestIP, BackendPort(s))],
                         r.owner[h := "local service " + s.name]))
  }

  function RenderLocal(services: seq<Service>): Option<Rendered> {
    if services == [] then Some(Rendered(map[], map[]))
    else
      match RenderLocal(services[..|services| - 1])
      case None => None
      case Some(r) => AddLocal(r, services[|services| - 1])
  }

  /** A service that must not stop the sync. */
  predicate Routable(s: Service) {
    match s.host
    case Invalid => false
    case NoRoute => true
    case Host(_) => s.guestIP != "" && if |s.forwards| > 0 then s.forwards[0].vmPort != 0 else s.healthPort > 0
  }

  ghost predicate SameHost(a: Service, b: Service) {
    a.host.Host? && a.host == b.host
  }

  ghost predicate Clean(services: seq<Service>) {
    && (forall s :: s in services ==> Routable(s))
    && (forall i, j :: 0 <= i < j < |services| ==> !SameHost(services[i], services[j]))
  }

  lemma {:induction false} RenderLocalMeaning(services: seq<Service>)
    ensures RenderLocal(services).Some? <==> Clean(services)
    ensures RenderLocal(services).Some? ==>
              forall h :: h in RenderLocal(services).value.owner <==> exists s :: s in services && s.host == Host(h)
  {
    if services != [] {
      var front, s := services[..|services| - 1], services[|services| - 1];
      assert services == front + [s];
      RenderLocalMeaning(front);
      CleanAppend(front, s);
      if RenderLocal(front).Some? {
        var owner := RenderLocal(front).value.owner;
        assert forall h :: (exists t :: t in services && t.host == Host(h)) <==>
               s.host == Host(h) || exists t :: t in front && t.host == Host(h);
        if s.host.Host? {
          assert s.host.name in owner <==> exists t :: t in front && t.host == s.host;
        }
      }
    }
  }

  lemma CleanAppend(front: seq<Service>, s: Service)
    ensures Clean(front + [s]) <==> Clean(front) && Routable(s) && forall t :: t in front ==> !SameHost(t, s)
  {
    var all := front + [s];
    assert forall t :: t in all <==> t in front || t == s;
    if Clean(all) {
      forall t | t in front ensures !SameHost(t, s) {
        var i :| 0 <= i < |front| && front[i] == t;
        assert !SameHost(all[i], all[|front|]);
      }
      forall i, j | 0 <= i < j < |front| ensures !SameHost(front[i], front[j]) {
        assert !SameHost(all[i], all[j]);
      }
    }
  }

  // -------------------------------------------------------------------- peers

  datatype Offer = Offer(node: string, hostIP: string, service: Service)

  predicate PeerBefore(a: Peer, b: Peer) {
    Less(a.node, b.node)
  }

  predicate ServiceBefore(a: Service, b: Service) {
    Less(a.name, b.name)
  }

  function OffersOf(peer: Peer, services: seq<Service>): seq<Offer> {
    seq(|services|, i requires 0 <= i < |services| => Offer(peer.node, peer.hostIP, services[i]))
  }

  /** Peers in node order, services in name order. */
  function Offers(peers: seq<Peer>): seq<Offer> {
    if peers == [] then []
    else Offers(peers[..|peers| - 1]) + OffersOf(peers[|peers| - 1], SortBy(ServiceBefore, peers[|peers| - 1].services))
  }

  predicate Usable(o: Offer) {
    o.service.host.Host? && o.hostIP != "" && |o.service.forwards| > 0 && o.service.forwards[0].hostPort != 0
  }

  /** One service of renderRemote: skipped unless its hostname and file name are both free. */
  function AddOffer(r: Rendered, o: Offer): Rendered {
    if !Usable(o) || o.service.host.name in r.owner || RemoteFileName(o.service.name) in r.files then r
    else
      Rendered(r.files[RemoteFileName(o.service.name) :=
                       Route(o.service.name, o.service.host.name, o.hostIP, o.service.forwards[0].hostPort)],
               r.owner[o.service.host.name := "remote service " + o.service.name + " on node " + o.node])
  }

  function AddOffers(r: Rendered, offers: seq<Offer>): Rendered {
    if offers == [] then r else AddOffer(AddOffers(r, offers[..|offers| - 1]), offers[|offers| - 1])
  }

  function RenderRemote(r: Rendered, peers: seq<Peer>): Rendered {
    AddOffers(r, Offers(SortBy(PeerBefore, peers)))
  }

  /** All files a full sync wants. */
  function Render(services: seq<Service>, peers: seq<Peer>): Option<Rendered> {
    match RenderLocal(services)
    case None => None
    case Some(r) => Some(RenderRemote(r, peers))
  }

  // ------------------------------------------------------------------ guarantees

  /** No hostname is in two files, every file's hostname is claimed, every file is a route file. */
  ghost predicate Sound(r: Rendered) {
    && (forall f :: f in r.files ==> r.files[f].host in r.owner && IsRouteFile(f))
    && (forall f, g :: f in r.files && g in r.files && r.files[f].host == r.files[g].host ==> f == g)
  }

  predicate IsRouteFile(name: string) {
    |name| >= |SUFFIX| && name[|name| - |SUFFIX|..] == SUFFIX
  }

  predicate IsRemoteFile(name: string) {
    REMOTE <= name
  }

  lemma FileNamesAreRouteFiles(service: string)
    ensures IsRouteFile(FileName(service)) && IsRouteFile(RemoteFileName(service))
    ensures IsRemoteFile(RemoteFileName(service))
  {
    assert RemoteFileName(service) == REMOTE + (service + SUFFIX);
  }

  lemma {:induction false} LocalIsSound(services: seq<Service>)
    requires RenderLocal(services).Some?
    ensures Sound(RenderLocal(services).value)
  {
    if services != [] {
      LocalIsSound(services[..|services| - 1]);
      FileNamesAreRouteFiles(services[|services| - 1].name);
    }
  }

  /** To the guest's own address, at the port of its first forward, or else of its health check. */
  predicate RoutesTo(route: Route, s: Service) {
    && s.host == Host(route.host) && route.service == s.name && route.address == s.guestIP
    && route.port == if |s.forwards| > 0 then s.forwards[0].vmPort else s.healthPort
  }

  lemma FileNameIsInjective(a: string, b: string)
    ensures FileName(a) == FileName(b) ==> a == b
  {
    assert FileName(a)[..|FileName(a)| - |SUFFIX|] == a && FileName(b)[..|FileName(b)| - |SUFFIX|] == b;
  }

  /** With distinct names, the local files are exactly one route per service that asks for one. */
  lemma {:induction false} LocalRoutesAreExact(services: seq<Service>)
    requires RenderLocal(services).Some?
    requires forall i, j :: 0 <= i < j < |services| ==> services[i].name != services[j].name
    ensures var files := RenderLocal(services).value.files;
            && (forall s :: s in services && s.host.Host? ==>
                s.name + ".yaml" in files && RoutesTo(files[s.name + ".yaml"], s))
            && (forall f :: f in files ==> exists s :: s in services && s.host.Host? && f == s.name + ".yaml")
  {
    if services != [] {
      var front, s := services[..|services| - 1], services[|services| - 1];
      LocalRoutesAreExact(front);
      RenderLocalMeaning(services);
      assert services == front + [s];
      forall t | t in front ensures FileName(t.name) != FileName(s.name) {
        FileNameIsInjective(t.name, s.name);
      }
    }
  }

  /** Offers only add: what was rendered before stays, and so does its claim. */
  ghost predicate Extends(r: Rendered, r': Rendered) {
    && (forall f :: f in r.files ==> f in r'.files && r'.files[f] == r.files[f])
    && (forall h :: h in r.owner ==> h in r'.owner && r'.owner[h] == r.owner[h])
  }

  lemma {:induction false} OffersAreSound(r: Rendered, offers: seq<Offer>)
    requires Sound(r)
    ensures Sound(AddOffers(r, offers)) && Extends(r, AddOffers(r, offers))
    ensures forall f :: f in AddOffers(r, offers).files && f !in r.files ==> IsRemoteFile(f)
  {
    if offers != [] {
      OffersAreSound(r, offers[..|offers| - 1]);
      FileNamesAreRouteFiles(offers[|offers| - 1].service.name);
    }
  }

  /** Each hostname is in at most one file, and a node's own routes win over every peer's. */
  lemma OneFilePerHostName(services: seq<Service>, peers: seq<Peer>)
    requires RenderLocal(services).Some?
    ensures Sound(Render(services, peers).value)
    ensures Extends(RenderLocal(services).value, Render(services, peers).value)
  {
    LocalIsSound(services);
    OffersAreSound(RenderLocal(services).value, Offers(SortBy(PeerBefore, peers)));
  }

  lemma {:induction false} AddOffersJoin(r: Rendered, xs: seq<Offer>, ys: seq<Offer>)
    ensures AddOffers(r, xs + ys) == AddOffers(AddOffers(r, xs), ys)
  {
    if ys == [] {
      assert xs + ys == xs;
    } else {
      assert (xs + ys)[..|xs + ys| - 1] == xs + ys[..|ys| - 1];
      AddOffersJoin(r, xs, ys[..|ys| - 1]);
    }
  }

  /** The peer has an address to proxy to, at the host port of the service's first forward. */
  predicate Proxied(o: Offer, route: Route) {
    && o.service.host == Host(route.host) && route.service == o.service.name
    && o.hostIP != "" && route.address == o.hostIP
    && |o.service.forwards| > 0 && route.port == o.service.forwards[0].hostPort != 0
  }

  /** An offer adds exactly its own route, if it can be proxied and neither its hostname nor its
      file name was taken when its turn came, and nothing that comes later undoes it; otherwise
      it adds nothing. */
  lemma OfferIsServedInTurn(r: Rendered, offers: seq<Offer>, k: nat)
    requires Sound(r) && k < |offers|
    ensures var o, before, after := offers[k], AddOffers(r, offers[..k]), AddOffers(r, offers);
            var file := "remote-" + o.service.name + ".yaml";
            && Extends(before, after)
            && (if (exists route :: Proxied(o, route)) && o.service.host.name !in before.owner && file !in before.files
                then file in after.files && Proxied(o, after.files[file]) && o.service.host.name in after.owner
                else AddOffers(r, offers[..k + 1]) == before)
  {
    var o, before, next := offers[k], AddOffers(r, offers[..k]), AddOffers(r, offers[..k + 1]);
    OneOfferMore(r, offers, k);
    OffersAreSound(r, offers[..k]);
    OffersAreSound(r, offers[..k + 1]);
    OffersAreSound(next, offers[k + 1..]);
    ExtendsOn(before, next, AddOffers(r, offers));
    if Usable(o) {
      assert Proxied(o, Route(o.service.name, o.service.host.name, o.hostIP, o.service.forwards[0].hostPort));
    }
  }

  lemma OneOfferMore(r: Rendered, offers: seq<Offer>, k: nat)
    requires k < |offers|
    ensures AddOffers(r, offers[..k + 1]) == AddOffer(AddOffers(r, offers[..k]), offers[k])
    ensures AddOffers(r, offers) == AddOffers(AddOffers(r, offers[..k + 1]), offers[k + 1..])
    ensures Extends(AddOffers(r, offers[..k]), AddOffer(AddOffers(r, offers[..k]), offers[k]))
  {
    assert offers[..k + 1][..k] == offers[..k];
    assert offers == offers[..k + 1] + offers[k + 1..];
    AddOffersJoin(r, offers[..k + 1], offers[k + 1..]);
  }

  lemma ExtendsOn(a: Rendered, b: Rendered, c: Rendered)
    requires Extends(a, b) && Extends(b, c)
    ensures Extends(a, c)
  {
  }

  /** Whatever is taken when an offer's turn comes was taken by a local route or by an earlier
      offer that could be proxied. */
  lemma {:induction false} TakenByWhom(r: Rendered, offers: seq<Offer>)
    ensures forall h :: h in AddOffers(r, offers).owner ==>
              || h in r.owner
              || exists j, route :: 0 <= j < |offers| && Proxied(offers[j], route) && route.host == h
    ensures forall f :: f in AddOffers(r, offers).files ==>
              || f in r.files
              || exists j, route :: 0 <= j < |offers| && Proxied(offers[j], route)
                   && f == "remote-" + route.service + ".yaml"
  {
    if offers != [] {
      var front, last := offers[..|offers| - 1], offers[|offers| - 1];
      TakenByWhom(r, front);
      assert forall j :: 0 <= j < |front| ==> front[j] == offers[j];
      assert offers[|offers| - 1] == last;
      if Usable(last) {
        assert Proxied(last,
                       Route(last.service.name, last.service.host.name, last.hostIP,
                             last.service.forwards[0].hostPort));
      }
    }
  }

  /** Offers come by node, and a node's by service. */
  ghost predicate InTurn(a: Offer, b: Offer) {
    Less(a.node, b.node) || (a.node == b.node && !Less(b.service.name, a.service.name))
  }

  ghost predicate AllInTurn(offers: seq<Offer>) {
    forall i, j :: 0 <= i < j < |offers| ==> InTurn(offers[i], offers[j])
  }

  ghost predicate NamesDiffer(services: seq<Service>) {
    forall i, j :: 0 <= i < j < |services| ==> services[i].name != services[j].name
  }

  lemma OwnOffersInTurn(peer: Peer)
    requires NamesDiffer(peer.services)
    ensures AllInTurn(OffersOf(peer, SortBy(ServiceBefore, peer.services)))
  {
    var ss := SortBy(ServiceBefore, peer.services);
    KeysOrderStrictly(ServiceBefore, (s: Service) => s.name, peer.services);
    SortSorts(ServiceBefore, peer.services);
    forall i, j | 0 <= i < j < |ss| ensures !Less(ss[j].name, ss[i].name) {
      assert ServiceBefore(ss[i], ss[j]);
      LessIsTotal(ss[i].name, ss[j].name);
    }
  }

  lemma InTurnJoin(front: seq<Offer>, last: seq<Offer>)
    requires AllInTurn(front) && AllInTurn(last) && forall a, b :: a in front && b in last ==> Less(a.node, b.node)
    ensures AllInTurn(front + last)
  {
    forall i, j | 0 <= i < j < |front + last| ensures InTurn((front + last)[i], (front + last)[j]) {
      if i < |front| <= j {
        assert front[i] in front && last[j - |front|] in last;
      }
    }
  }

  lemma {:induction false} OffersInTurn(peers: seq<Peer>)
    requires Sorted(PeerBefore, peers) && forall p :: p in peers ==> NamesDiffer(p.services)
    ensures forall o :: o in Offers(peers) ==> exists k :: 0 <= k < |peers| && o.node == peers[k].node
    ensures AllInTurn(Offers(peers))
  {
    if peers != [] {
      var n := |peers| - 1;
      var front, last := Offers(peers[..n]), OffersOf(peers[n], SortBy(ServiceBefore, peers[n].services));
      assert forall p :: p in peers[..n] ==> p in peers;
      OffersInTurn(peers[..n]);
      OwnOffersInTurn(peers[n]);
      forall a | a in front ensures exists k :: 0 <= k < n && a.node == peers[k].node {
        var k :| 0 <= k < n && a.node == peers[..n][k].node;
        assert peers[k].node == a.node;
      }
      forall a, b | a in front && b in last ensures Less(a.node, b.node) {
        var k :| 0 <= k < n && a.node == peers[k].node;
        assert PeerBefore(peers[k], peers[n]);
      }
      InTurnJoin(front, last);
    }
  }

  /** So of two peers that offer one hostname, the one of the smaller name is served. */
  lemma PeersTakeTurns(peers: seq<Peer>)
    requires forall i, j :: 0 <= i < j < |peers| ==> peers[i].node != peers[j].node
    requires forall p :: p in peers ==> NamesDiffer(p.services)
    ensures AllInTurn(Offers(SortBy(PeerBefore, peers)))
  {
    KeysOrderStrictly(PeerBefore, (p: Peer) => p.node, peers);
    SortSorts(PeerBefore, peers);
    SameElements(SortBy(PeerBefore, peers), peers);
    OffersInTurn(SortBy(PeerBefore, peers));
  }

  /** The order in which peers are listed makes no difference. */
  lemma PeerOrderIsIrrelevant(services: seq<Service>, peers: seq<Peer>, peers': seq<Peer>)
    requires forall i, j :: 0 <= i < j < |peers| ==> peers[i].node != peers[j].node
    requires forall i, j :: 0 <= i < j < |peers'| ==> peers'[i].node != peers'[j].node
    requires multiset(peers) == multiset(peers')
    ensures Render(services, peers) == Render(services, peers')
  {
    KeysOrderStrictly(PeerBefore, (p: Peer) => p.node, peers);
    KeysOrderStrictly(PeerBefore, (p: Peer) => p.node, peers');
    SortForgetsOrder(PeerBefore, peers, peers');
  }
}
