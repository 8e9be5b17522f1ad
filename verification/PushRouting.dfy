/**
  Routing of user cache requests: `sendPush` splits the recipients of a push into local and remote,
  and `routeUserReq` splits a request by the nodes the ring assigns to its users. The ring is any
  function from topics to node names.
 */
module PushRouting {
  import opened Wrappers

  type Uid = nat

  datatype Recipient = Recipient(delivered: int, devices: seq<string>, unread: int, increment: bool)

  type Recipients = map<Uid, Recipient>

  datatype Receipt = Receipt(to: Recipients, channel: string, payload: string)

  /** A user cache request; `node` is the sender's name. */
  datatype Request = Request(node: string, userId: Uid, userIds: seq<Uid>, unread: int, inc: bool, gone: bool,
                             push: Option<Receipt>)

  /** A request with nothing set but its sender. */
  function Plain(node: string): Request { Request(node, 0, [], 0, false, false, None) }

  function To(r: Request): Recipients { if r.push.Some? then r.push.value.to else map[] }

  /** What a node answers to a call. */
  datatype Reply = Accepted | Refused | Broken

  datatype Fault = NoRecipientNode | NoListedNode | NoUserNode | OutOfSync | CallFailed

  /** `topic` is the user's own topic; `nodes` are the other nodes of the cluster. */
  datatype Cluster = Cluster(self: string, nodes: set<string>, ring: string -> string, topic: Uid -> string)

  function Home(c: Cluster, u: Uid): string { c.ring(c.topic(u)) }

  predicate IsRemote(c: Cluster, u: Uid) { Home(c, u) != c.self }

  /** `nodeForTopic`: no node for topics of this node or of a node that is not there. */
  function NodeFor(c: Cluster, topic: string): Option<string> {
    var name := c.ring(topic);
    if name == c.self || name !in c.nodes then None else Some(name)
  }

  predicate Routable(c: Cluster, u: Uid) {
    NodeFor(c, c.topic(u)).Some?
  }

  /** The recipients that live on a node. */
  function Part(c: Cluster, to: Recipients, node: string): Recipients {
    map u | u in to && Home(c, u) == node :: to[u]
  }

  function Remote(c: Cluster, to: Recipients): Recipients {
    map u | u in to && IsRemote(c, u) :: to[u]
  }

  // ---------------------------------------------------------------- requests by node

  /** The nodes some recipient lives on. */
  function Homes(c: Cluster, to: Recipients): set<string> {
    set u | u in to :: Home(c, u)
  }

  /** One request for each node: its own recipients, the payload, and no channel. */
  function ByNode(c: Cluster, receipt: Receipt): map<string, Request> {
    map n | n in Homes(c, receipt.to) ::
      Plain(c.self).(push := Some(Receipt(Part(c, receipt.to, n), "", receipt.payload)))
  }

  /** The users of a list that live on a node, in their order. */
  function Residents(c: Cluster, users: seq<Uid>, node: string): seq<Uid> {
    if users == [] then []
    else
      var last := users[|users| - 1];
      Residents(c, users[..|users| - 1], node) + if Home(c, last) == node then [last] else []
  }

  function ListHomes(c: Cluster, users: seq<Uid>): set<string> {
    set i | 0 <= i < |users| :: Home(c, users[i])
  }

  function ListByNode(c: Cluster, users: seq<Uid>, inc: bool): map<string, Request> {
    map n | n in ListHomes(c, users) :: Plain(c.self).(userIds := Residents(c, users, n), inc := inc)
  }

  /** The announcement to every node that a user is deleted. */
  function GoneToAll(c: Cluster, users: seq<Uid>): map<string, Request> {
    map n | n in c.nodes :: Plain(c.self).(userIds := users, gone := true)
  }

  /** What a request is split into; nothing for a request about one user. */
  function Packets(c: Cluster, req: Request): map<string, Request> {
    if req.push.Some? then ByNode(c, req.push.value)
    else if req.userIds != [] then ListByNode(c, req.userIds, req.inc)
    else if req.gone then GoneToAll(c, req.userIds)
    else map[]
  }

  /** Every user of the request lives on another node that is there. */
  predicate Deliverable(c: Cluster, req: Request) {
    if req.push.Some? then forall u | u in req.push.value.to :: Routable(c, u)
    else forall i | 0 <= i < |req.userIds| :: Routable(c, req.userIds[i])
  }

  lemma {:induction false} ResidentsCount(c: Cluster, users: seq<Uid>, n: string, u: Uid)
    ensures multiset(Residents(c, users, n))[u] == if Home(c, u) == n then multiset(users)[u] else 0
  {
    if users != [] {
      var rest, last := users[..|users| - 1], users[|users| - 1];
      ResidentsCount(c, rest, n, u);
      assert users == rest + [last];
    }
  }

  /** Each user of a list is in the request to its home as often as in the list, and in no other. */
  lemma ListExact(c: Cluster, users: seq<Uid>, inc: bool, n: string, u: Uid)
    ensures var groups := ListByNode(c, users, inc);
      (if n in groups then multiset(groups[n].userIds)[u] else 0) == if Home(c, u) == n then multiset(users)[u] else 0
  {
    ResidentsCount(c, users, n, u);
    if u in users && Home(c, u) == n {
      var i :| 0 <= i < |users| && users[i] == u;
      assert Home(c, users[i]) in ListHomes(c, users);
    }
    assert u !in users ==> multiset(users)[u] == 0;
  }

  /** A list of users is never announced as a deletion, even if the request says so. */
  lemma ListBeforeGone(c: Cluster, req: Request, n: string)
    requires req.push == None && req.userIds != [] && n in Packets(c, req)
    ensures !Packets(c, req)[n].gone && Packets(c, req)[n].userIds == Residents(c, req.userIds, n)
  {
  }

  /** The announcement that a user is deleted names no user, whoever it is about. */
  lemma DeletionForgetsUser(c: Cluster, user: Uid, n: string)
    requires n in c.nodes
    ensures var packets := Packets(c, Plain("").(userId := user, gone := true));
      n in packets && packets[n] == Plain(c.self).(gone := true)
  {
  }

  // ---------------------------------------------------------------- the split

  /** Local and remote parts, and the remote requests, hold every recipient once, unchanged, at home. */
  lemma SplitExact(c: Cluster, receipt: Receipt, u: Uid, n: string, r: Recipient)
    ensures var groups := ByNode(c, receipt.(to := Remote(c, receipt.to)));
      var here := Part(c, receipt.to, c.self);
      && ((n in groups && u in To(groups[n]) && To(groups[n])[u] == r) <==>
          (u in receipt.to && receipt.to[u] == r && Home(c, u) == n && n != c.self))
      && ((u in here && here[u] == r) <==> (u in receipt.to && receipt.to[u] == r && Home(c, u) == c.self))
  {
  }

  /** A recipient can be routed exactly when the ring puts its topic on another node that is there. */
  lemma RoutableExactly(c: Cluster, u: Uid)
    ensures Routable(c, u) <==> c.ring(c.topic(u)) != c.self && c.ring(c.topic(u)) in c.nodes
    ensures Home(c, u) == c.ring(c.topic(u)) && (IsRemote(c, u) <==> c.ring(c.topic(u)) != c.self)
  {
  }

  /** Besides its recipients the request to a node carries the payload and the sender, and nothing else. */
  lemma PushPacket(c: Cluster, receipt: Receipt, n: string)
    requires n in ByNode(c, receipt)
    ensures var r := ByNode(c, receipt)[n];
      r == Request(c.self, 0, [], 0, false, false, Some(Receipt(To(r), "", receipt.payload)))
  {
  }

  /** The request to a node carries its users, the direction and the sender; a deletion goes to every other node. */
  lemma ListPacket(c: Cluster, users: seq<Uid>, inc: bool, n: string)
    ensures n in ListByNode(c, users, inc) ==>
      var r := ListByNode(c, users, inc)[n]; r == Request(c.self, 0, r.userIds, 0, inc, false, None)
    ensures n in GoneToAll(c, users) <==> n in c.nodes
    ensures n in c.nodes ==> GoneToAll(c, users)[n] == Request(c.self, 0, users, 0, false, true, None)
  {
  }

  /** No request is empty. */
  lemma NoneEmpty(c: Cluster, receipt: Receipt, n: string)
    requires n in ByNode(c, receipt)
    ensures To(ByNode(c, receipt)[n]) != map[]
  {
    var u :| u in receipt.to && Home(c, u) == n;
    assert u in Part(c, receipt.to, n);
  }

  datatype Call = Call(node: string, request: Request)

  /** The calls made so far: different nodes, each with its own request. */
  predicate CallsFrom(groups: map<string, Request>, calls: seq<Call>) {
    && (forall k | 0 <= k < |calls| :: calls[k].node in groups && calls[k].request == groups[calls[k].node])
    && (forall j, k | 0 <= j < k < |calls| :: calls[j].node != calls[k].node)
  }

  function Nodes(calls: seq<Call>): set<string> {
    set k | 0 <= k < |calls| :: calls[k].node
  }

  /** A remote recipient is in exactly one of the calls, the one to its home, with its record; a local one in none. */
  lemma OnceEach(c: Cluster, receipt: Receipt, calls: seq<Call>, u: Uid)
    requires CallsFrom(ByNode(c, receipt.(to := Remote(c, receipt.to))), calls)
    requires Nodes(calls) == Homes(c, Remote(c, receipt.to))
    ensures forall j, k | 0 <= j < k < |calls| && u in To(calls[j].request) :: u !in To(calls[k].request)
    ensures forall k | 0 <= k < |calls| && u in To(calls[k].request) ::
      u in receipt.to && calls[k].node == Home(c, u) != c.self && To(calls[k].request)[u] == receipt.to[u]
    ensures u in receipt.to && IsRemote(c, u) ==> exists k :: 0 <= k < |calls| && u in To(calls[k].request)
  {
    var remote := Remote(c, receipt.to);
    if u in remote {
      assert Home(c, u) in Homes(c, remote);
      assert Home(c, u) in Nodes(calls);
      var k :| 0 <= k < |calls| && calls[k].node == Home(c, u);
      assert u in Part(c, remote, calls[k].node);
    }
  }

  // ---------------------------------------------------------------- the code

  /** Put a recipient into the request of a node, making one if there is none. */
  function Add(groups: map<string, Request>, fresh_: Request, name: string, u: Uid, r: Recipient)
    : map<string, Request>
  {
    var q := if name in groups then groups[name] else fresh_;
    if q.push.None? then groups
    else groups[name := q.(push := Some(q.push.value.(to := q.push.value.to[u := r])))]
  }

  function NewRequest(c: Cluster, receipt: Receipt): Request {
    Plain(c.self).(push := Some(Receipt(map[], "", receipt.payload)))
  }

  /** The loop of `routeUserReq` over the recipients, in any order. */
  method GroupByNode(c: Cluster, receipt: Receipt) returns (fault: Option<Fault>, groups: map<string, Request>)
    ensures fault == None <==> forall u | u in receipt.to :: Routable(c, u)
    ensures fault != None ==> fault == Some(NoRecipientNode)
    ensures fault == None ==> groups == ByNode(c, receipt)
  {
    hide ByNode, Add, NewRequest;
    groups := map[];
    var done: Recipients := map[];
    NothingYet(c, receipt);
    while done.Keys != receipt.to.Keys
      invariant done.Keys <= receipt.to.Keys && (forall u | u in done :: done[u] == receipt.to[u] && Routable(c, u))
      invariant groups == ByNode(c, receipt.(to := done))
      decreases |receipt.to.Keys - done.Keys|
    {
      var u :| u in receipt.to && u !in done;
      var node := NodeFor(c, c.topic(u));
      if node == None {
        return Some(NoRecipientNode), groups;
      }
      GroupGrows(c, receipt, done, u);
      ghost var left := receipt.to.Keys - done.Keys;
      groups := Add(groups, NewRequest(c, receipt), node.value, u, receipt.to[u]);
      done := done[u := receipt.to[u]];
      assert receipt.to.Keys - done.Keys == left - {u};
    }
    assert done == receipt.to;
    return None, groups;
  }

  lemma NothingYet(c: Cluster, receipt: Receipt)
    ensures ByNode(c, receipt.(to := map[])) == map[]
  {
  }

  /** One more recipient changes the request of its own node only. */
  lemma GroupGrows(c: Cluster, receipt: Receipt, done: Recipients, u: Uid)
    requires u in receipt.to && u !in done
    ensures ByNode(c, receipt.(to := done[u := receipt.to[u]])) ==
      Add(ByNode(c, receipt.(to := done)), NewRequest(c, receipt), Home(c, u), u, receipt.to[u])
  {
    var more := done[u := receipt.to[u]];
    var name := Home(c, u);
    assert Homes(c, more) == Homes(c, done) + {name} by {
      forall v | v in done ensures Home(c, v) in Homes(c, more) {
        assert v in more;
      }
      assert u in more;
    }
    forall n | n in Homes(c, more)
      ensures Part(c, more, n) == if n == name then Part(c, done, n)[u := receipt.to[u]] else Part(c, done, n)
    {
    }
    if name !in Homes(c, done) {
      assert Part(c, done, name) == map[];
    }
  }

  function FaultOf(r: Reply): Option<Fault> {
    match r
    case Accepted => None
    case Refused => Some(OutOfSync)
    case Broken => Some(CallFailed)
  }

  /** The calling loop, in any order, up to the first failure. */
  method CallAll(groups: map<string, Request>, reply: string -> Reply) returns (fault: Option<Fault>, calls: seq<Call>)
    ensures CallsFrom(groups, calls)
    ensures fault == None <==> forall n | n in groups :: reply(n) == Accepted
    ensures fault == None ==> Nodes(calls) == groups.Keys
    ensures fault != None ==> calls != [] && FaultOf(reply(calls[|calls| - 1].node)) == fault
    ensures forall k | 0 <= k < |calls| - 1 :: reply(calls[k].node) == Accepted
  {
    hide CallsFrom, Nodes;
    calls := [];
    var left := groups.Keys;
    NoCalls(groups);
    while left != {}
      invariant left <= groups.Keys && CallsFrom(groups, calls) && Nodes(calls) == groups.Keys - left
      invariant forall k | 0 <= k < |calls| :: reply(calls[k].node) == Accepted
      invariant forall n | n in groups && n !in left :: reply(n) == Accepted
      decreases |left|
    {
      var n :| n in left;
      CallOne(groups, calls, n);
      calls := calls + [Call(n, groups[n])];
      if reply(n) != Accepted {
        return FaultOf(reply(n)), calls;
      }
      left := left - {n};
    }
    return None, calls;
  }

  lemma NoCalls(groups: map<string, Request>)
    ensures CallsFrom(groups, []) && Nodes([]) == {}
  {
  }

  lemma CallOne(groups: map<string, Request>, calls: seq<Call>, n: string)
    requires CallsFrom(groups, calls) && n in groups && n !in Nodes(calls)
    ensures var all := calls + [Call(n, groups[n])]; CallsFrom(groups, all) && Nodes(all) == Nodes(calls) + {n}
  {
    var all := calls + [Call(n, groups[n])];
    forall k | 0 <= k < |calls|
      ensures all[k] == calls[k] && calls[k].node in Nodes(calls) && calls[k].node in Nodes(all)
    {
      assert all[k] == calls[k];
    }
    assert all[|calls|].node in Nodes(all);
  }

  /** The loop of `routeUserReq` over a list of users. */
  method GroupList(c: Cluster, users: seq<Uid>, inc: bool) returns (fault: Option<Fault>, groups: map<string, Request>)
    ensures fault == None <==> forall i | 0 <= i < |users| :: Routable(c, users[i])
    ensures fault != None ==> fault == Some(NoListedNode)
    ensures fault == None ==> groups == ListByNode(c, users, inc)
  {
    hide ListByNode;
    groups := map[];
    NobodyYet(c, inc);
    for k := 0 to |users|
      invariant forall i | 0 <= i < k :: Routable(c, users[i])
      invariant groups == ListByNode(c, users[..k], inc)
    {
      var u := users[k];
      var node := NodeFor(c, c.topic(u));
      if node == None {
        assert !Routable(c, users[k]);
        return Some(NoListedNode), groups;
      }
      ListGrows(c, users[..k], inc, u);
      assert users[..k + 1] == users[..k] + [u];
      var r := if node.value in groups then groups[node.value] else Plain(c.self).(inc := inc);
      groups := groups[node.value := r.(userIds := r.userIds + [u])];
    }
    assert users[..|users|] == users;
    return None, groups;
  }

  lemma NobodyYet(c: Cluster, inc: bool)
    ensures ListByNode(c, [], inc) == map[]
  {
  }

  lemma ListGrows(c: Cluster, users: seq<Uid>, inc: bool, u: Uid)
    ensures var now, name := ListByNode(c, users, inc), Home(c, u);
      var r := if name in now then now[name] else Plain(c.self).(inc := inc);
      ListByNode(c, users + [u], inc) == now[name := r.(userIds := r.userIds + [u])]
  {
    var all, name := users + [u], Home(c, u);
    assert all[..|users|] == users && all[|users|] == u;
    assert ListHomes(c, all) == ListHomes(c, users) + {name} by {
      forall i | 0 <= i < |users| ensures Home(c, users[i]) in ListHomes(c, all) {
        assert all[i] == users[i];
      }
      assert Home(c, all[|users|]) in ListHomes(c, all);
    }
    forall n
      ensures Residents(c, all, n) == if n == name then Residents(c, users, n) + [u] else Residents(c, users, n)
    {
      assert Residents(c, users, n) + [] == Residents(c, users, n);
    }
    if name !in ListHomes(c, users) {
      NobodyThere(c, users, name);
    }
  }

  lemma {:induction false} NobodyThere(c: Cluster, users: seq<Uid>, n: string)
    requires forall i | 0 <= i < |users| :: Home(c, users[i]) != n
    ensures Residents(c, users, n) == []
  {
    if users != [] {
      NobodyThere(c, users[..|users| - 1], n);
    }
  }

  /** The requests by node, or the first user without a node. */
  method SplitRequest(c: Cluster, req: Request) returns (fault: Option<Fault>, groups: map<string, Request>)
    ensures fault == None <==> Deliverable(c, req)
    ensures fault == None ==> groups == Packets(c, req)
    ensures fault != None ==> fault == Some(if req.push.Some? then NoRecipientNode else NoListedNode)
  {
    hide ByNode, ListByNode, GoneToAll;
    if req.push.Some? {
      fault, groups := GroupByNode(c, req.push.value);
    } else if req.userIds != [] {
      fault, groups := GroupList(c, req.userIds, req.inc);
    } else if req.gone {
      fault, groups := None, GoneToAll(c, req.userIds);
    } else {
      fault, groups := None, map[];
    }
  }

  /** `routeUserReq`. A request that is split into nothing goes whole to the node of its own user. */
  method RouteUserReq(c: Cluster, req: Request, reply: string -> Reply) returns (fault: Option<Fault>, calls: seq<Call>)
    ensures !Deliverable(c, req) ==> fault.Some? && calls == []
    ensures Deliverable(c, req) && Packets(c, req) != map[] ==>
      && CallsFrom(Packets(c, req), calls)
      && (fault == None <==> forall n | n in Packets(c, req) :: reply(n) == Accepted)
      && (fault == None ==> Nodes(calls) == Packets(c, req).Keys)
    ensures Deliverable(c, req) && Packets(c, req) == map[] ==>
      if Routable(c, req.userId)
      then calls == [Call(Home(c, req.userId), req.(node := c.self))] && fault == FaultOf(reply(Home(c, req.userId)))
      else calls == [] && fault == Some(NoUserNode)
  {
    hide CallsFrom, Nodes, Packets, Deliverable;
    var groups;
    fault, groups := SplitRequest(c, req);
    if fault != None {
      return fault, [];
    }
    if groups != map[] {
      fault, calls := CallAll(groups, reply);
      return;
    }
    var node := NodeFor(c, c.topic(req.userId));
    if node == None {
      return Some(NoUserNode), [];
    }
    return FaultOf(reply(node.value)), [Call(node.value, req.(node := c.self))];
  }

  lemma AnyHome(c: Cluster, to: Recipients)
    ensures Homes(c, to) == {} <==> to == map[]
  {
    if to != map[] {
      var u :| u in to;
      assert Home(c, u) in Homes(c, to);
    }
  }

  /** `routeUserReq` on a request that carries a push. */
  method RoutePush(c: Cluster, receipt: Receipt, reply: string -> Reply) returns (calls: seq<Call>)
    ensures receipt.to == map[] ==>
      calls == if Routable(c, 0) then [Call(Home(c, 0), Plain(c.self).(push := Some(receipt)))] else []
    ensures receipt.to != map[] ==> CallsFrom(ByNode(c, receipt), calls)
    ensures (exists u | u in receipt.to :: !Routable(c, u)) ==> calls == []
    ensures receipt.to != map[] && (forall u | u in receipt.to :: Routable(c, u) && reply(Home(c, u)) == Accepted) ==>
      Nodes(calls) == Homes(c, receipt.to)
  {
    hide CallsFrom, Nodes, ByNode, Homes;
    var fault;
    fault, calls := RouteUserReq(c, Plain("").(push := Some(receipt)), reply);
    NoCalls(ByNode(c, receipt));
    PushPackets(c, receipt);
  }

  lemma PushPackets(c: Cluster, receipt: Receipt)
    ensures ByNode(c, receipt).Keys == Homes(c, receipt.to)
    ensures ByNode(c, receipt) == map[] <==> receipt.to == map[]
    ensures forall n | n in ByNode(c, receipt) :: exists u :: u in receipt.to && Home(c, u) == n
  {
    AnyHome(c, receipt.to);
    assert ByNode(c, receipt).Keys == Homes(c, receipt.to);
  }

  /** The loop of `sendPush` over the recipients, in any order. */
  method SplitRecipients(c: Cluster, to: Recipients) returns (local: Recipients, remote: Recipients)
    ensures local == Part(c, to, c.self) && remote == Remote(c, to)
  {
    local, remote := map[], map[];
    var left := to.Keys;
    while left != {}
      invariant left <= to.Keys
      invariant local == map u | u in to && u !in left && !IsRemote(c, u) :: to[u]
      invariant remote == map u | u in to && u !in left && IsRemote(c, u) :: to[u]
      decreases |left|
    {
      var u :| u in left;
      if IsRemote(c, u) {
        remote := remote[u := to[u]];
      } else {
        local := local[u := to[u]];
      }
      left := left - {u};
    }
  }

  predicate Worth(receipt: Receipt) {
    receipt.to != map[] || receipt.channel != ""
  }

  /** `sendPush`: what is queued at this node, if its queue has room, and the calls made to other nodes. */
  method SendPush(cluster: Option<Cluster>, receipt: Receipt, room: bool, reply: string -> Reply)
      returns (queued: Option<Receipt>, calls: seq<Call>)
    ensures cluster == None ==> calls == []
    ensures cluster == None ==>
      queued == if room && (receipt.to != map[] || receipt.channel != "") then Some(receipt) else None
    ensures cluster.Some? ==>
      var local := receipt.(to := Part(cluster.value, receipt.to, cluster.value.self));
      queued == if room && (local.to != map[] || local.channel != "") then Some(local) else None
    ensures cluster.Some? ==>
      var c, remote := cluster.value, Remote(cluster.value, receipt.to);
      && (remote == map[] ==>
            calls == if receipt.channel != "" && Routable(c, 0)
                     then [Call(Home(c, 0), Plain(c.self).(push := Some(receipt.(to := map[]))))]
                     else [])
      && (remote != map[] ==> CallsFrom(ByNode(c, receipt.(to := remote)), calls))
      && (remote != map[] && (forall u | u in remote :: Routable(c, u) && reply(Home(c, u)) == Accepted) ==>
            Nodes(calls) == Homes(c, remote))
      && (remote != map[] && (exists u | u in remote :: !Routable(c, u)) ==> calls == [])
  {
    hide CallsFrom, Nodes, ByNode, Homes, Part, Remote;
    calls := [];
    var local := receipt;
    if cluster.Some? {
      var c := cluster.value;
      var here, there := SplitRecipients(c, receipt.to);
      local := receipt.(to := here);
      var remote := receipt.(to := there);
      if Worth(remote) {
        calls := RoutePush(c, remote, reply);
      }
    }
    queued := if room && Worth(local) then Some(local) else None;
  }
}
