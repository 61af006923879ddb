/** The active and inactive lists of an epoll instance (lib/sockets/epoll.c). */
module EpollSet {
  import opened LinkedList

  /** The bits of an event mask. */
  datatype Flag = In | Out | Err | Hup | RdHup | EdgeTriggered | Exclusive | Unsupported(bit: nat)

  type Mask = set<Flag>

  /** The part of struct socket that concerns epoll: pending events and registrations. */
  class Socket {
    var epEvents: Mask
    var eps: seq<Registration>

    constructor ()
      ensures epEvents == {} && eps == []
    {
      epEvents, eps := {}, [];
    }
  }

  /** struct epoll_socket, apart from its list pointers. */
  datatype Info = Info(ep: Epoll, sock: Socket, mask: Mask, active: bool, user: nat)

  type Registration = Node<Info>

  predicate Meets(events: Mask, mask: Mask) {
    events * mask != {}
  }

  /** The registration asks for an event that is pending on its socket. */
  predicate Ready(es: Registration)
    reads es`data, es.data.sock`epEvents
  {
    Meets(es.data.sock.epEvents, es.data.mask)
  }

  /** What epoll_wait hands to the application for a registration. */
  datatype Report = Report(events: Mask, user: nat)

  function ReportOf(es: Registration): Report
    reads es`data, es.data.sock`epEvents
  {
    Report(es.data.sock.epEvents * es.data.mask, es.data.user)
  }

  /** The application is told of exactly the pending events it asked for, and of a registration only if there are any. */
  lemma ReportExact(es: Registration, f: Flag)
    ensures f in ReportOf(es).events <==> f in es.data.sock.epEvents && f in es.data.mask
    ensures Ready(es) <==> exists e <- es.data.sock.epEvents :: e in es.data.mask
    ensures ReportOf(es).user == es.data.user
  {
    if e :| e in es.data.sock.epEvents && e in es.data.mask {
      assert e in es.data.sock.epEvents * es.data.mask;
    } else {
      assert es.data.sock.epEvents * es.data.mask == {};
    }
  }

  /** What ep_poll_tas started from: the active registrations, those of them that are ready, all
      registrations, and those that were inactive. */
  datatype Progress = Progress(was: seq<Registration>, ready: set<Registration>, members: set<Registration>,
                               waiting: set<Registration>)

  /** After serving the first k of the registrations that were active, those of them that are ready have
      been reported once each, in order, and are behind the rest. */
  ghost predicate Served(was: seq<Registration>, ready: set<Registration>, k: nat, regs: seq<Registration>,
                         now: seq<Registration>)
  {
    && k <= |was| && now == was[k..] + regs && Distinct(regs)
    && (forall es <- regs :: es in was[..k] && es in ready)
    && (forall es <- was[..k] :: es in ready ==> es in regs)
  }

  lemma ServedNone(was: seq<Registration>, ready: set<Registration>)
    ensures Served(was, ready, 0, [], was)
  {
    assert was[0..] == was && was[..0] == [];
  }

  lemma ServedNext(was: seq<Registration>, ready: set<Registration>, k: nat, regs: seq<Registration>,
                   now: seq<Registration>)
    requires Served(was, ready, k, regs, now) && k < |was| && Distinct(was)
    ensures |now| > 0 && now[0] == was[k] && now[0] in was
    ensures now[0] in ready ==> Served(was, ready, k + 1, regs + [now[0]], now[1..] + [now[0]])
    ensures now[0] !in ready ==> Served(was, ready, k + 1, regs, now[1..] + [])
  {
    var es := now[0];
    assert was[..k + 1] == was[..k] + [es];
    assert now[1..] == was[k + 1..] + regs;
    assert now[1..] + [es] == was[k + 1..] + (regs + [es]) && now[1..] + [] == now[1..];
    assert es !in regs;
  }

  lemma ServedAll(was: seq<Registration>, ready: set<Registration>, k: nat, regs: seq<Registration>,
                  now: seq<Registration>)
    requires Served(was, ready, k, regs, now)
    ensures Distinct(regs) && forall es <- regs :: es in was && es in ready && es in now
    ensures k == |was| ==> now == regs
  {
  }

  lemma RemovedFirst(s: seq<Registration>)
    requires |s| > 0
    ensures Removed(s, 0) == s[1..]
  {
  }

  lemma RemovedSet(s: seq<Registration>, c: nat)
    requires c < |s| && Distinct(s)
    ensures forall x :: x in Removed(s, c) <==> x in s && x != s[c]
  {
    var r := Removed(s, c);
    forall x | x in s && x != s[c] ensures x in r {
      var k :| 0 <= k < |s| && s[k] == x;
      assert r[if k < c then k else k - 1] == x;
    }
  }

  /** struct epoll. */
  class Epoll {
    const active: List<Info>
    const inactive: HeadList<Info>
    var numActive: nat
    var numTas: nat
    ghost var spurious: int

    constructor ()
      ensures Valid() && active.nodes == [] && inactive.nodes == [] && numTas == 0 && spurious == 0
      ensures fresh(active) && fresh(inactive)
    {
      active := new List<Info>();
      inactive := new HeadList<Info>();
      numActive, numTas, spurious := 0, 0, 0;
    }

    ghost function Members(): set<Registration>
      reads active`nodes, inactive`nodes
    {
      active.Members() + inactive.Members()
    }

    /** Every registration is on the list its flag says, and the counter counts the active ones. */
    ghost predicate Valid()
      reads this, active, inactive, active.nodes, inactive.nodes
    {
      && active.Valid() && inactive.Valid() && active.Members() !! inactive.Members()
      && numActive == |active.nodes|
      && (forall es <- active.nodes :: es.data.ep == this && es.data.active)
      && (forall es <- inactive.nodes :: es.data.ep == this && !es.data.active)
    }

    /** es_remove_inactive. */
    method RemoveInactive(es: Registration)
      requires Valid() && es in inactive.nodes
      modifies inactive, inactive.Members()`next, inactive.Members()`prev
      ensures Valid() && inactive.Members() == old(inactive.Members()) - {es}
    {
      hide Removed, List.Valid, HeadList.Valid;
      ghost var c :| 0 <= c < |inactive.nodes| && inactive.nodes[c] == es;
      ghost var was := inactive.nodes;
      DistinctNodes();
      inactive.Unlink(es, c);
      RemovedSet(was, c);
    }

    lemma DistinctNodes()
      requires Valid()
      ensures Distinct(inactive.nodes) && Distinct(active.nodes)
    {
    }

    /** es_remove_active. */
    method RemoveActive(es: Registration, ghost c: nat)
      requires Valid() && c < |active.nodes| && active.nodes[c] == es
      modifies `numActive, active, active.Members()`next, active.Members()`prev
      ensures Valid() && active.nodes == Removed(old(active.nodes), c) && active.Members() == old(active.Members()) - {es}
    {
      hide Removed, List.Valid, HeadList.Valid;
      ghost var was := active.nodes;
      DistinctNodes();
      active.Unlink(es, c);
      RemovedSet(was, c);
      numActive := numActive - 1;
    }

    /** es_add_active, for a registration on no list. */
    method AddActive(es: Registration)
      requires Valid() && es !in Members() && es.data.ep == this && es.data.active
      modifies `numActive, active, active.Members()`next, es`next, es`prev
      ensures Valid() && active.nodes == old(active.nodes) + [es]
    {
      hide List.Valid, HeadList.Valid;
      active.PushLast(es);
      numActive := numActive + 1;
    }

    /** es_add_inactive, for a registration on no list. */
    method AddInactive(es: Registration)
      requires Valid() && es !in Members() && es.data.ep == this && !es.data.active
      modifies inactive, inactive.Members()`prev, es`next, es`prev
      ensures Valid() && inactive.nodes == [es] + old(inactive.nodes)
    {
      hide List.Valid, HeadList.Valid;
      inactive.PushFirst(es);
    }

    /** es_activate. */
    method Activate(es: Registration)
      requires Valid() && es in Members()
      modifies `numActive, active, inactive, Members()`next, Members()`prev, es`data
      ensures Valid() && es.data == old(es.data).(active := true)
      ensures active.nodes == if old(es.data.active) then old(active.nodes) else old(active.nodes) + [es]
      ensures inactive.Members() == old(inactive.Members()) - {es} && Members() == old(Members())
    {
      hide List.Valid, HeadList.Valid;
      if es.data.active {
        return;
      }
      RemoveInactive(es);
      es.data := es.data.(active := true);
      AddActive(es);
    }

    /** es_deactivate, for the first active registration. */
    method Deactivate(es: Registration, ghost c: nat)
      requires Valid() && c < |active.nodes| && active.nodes[c] == es
      modifies `numActive, active, inactive, Members()`next, Members()`prev, es`data
      ensures Valid() && es.data == old(es.data).(active := false)
      ensures active.nodes == Removed(old(active.nodes), c) && inactive.nodes == [es] + old(inactive.nodes)
    {
      hide Removed, List.Valid, HeadList.Valid;
      RemoveActive(es, c);
      es.data := es.data.(active := false);
      AddInactive(es);
    }

    /** es_active_pushback. */
    method PushBack(es: Registration, ghost c: nat)
      requires Valid() && c < |active.nodes| && active.nodes[c] == es
      modifies `numActive, active, active.Members()`next, active.Members()`prev
      ensures Valid() && active.nodes == Removed(old(active.nodes), c) + [es]
    {
      hide Removed, List.Valid, HeadList.Valid;
      RemoveActive(es, c);
      AddActive(es);
    }

    /** es_remove_ep. */
    method RemoveEp(es: Registration)
      requires Valid() && es in Members()
      modifies `numActive, active, inactive, Members()`next, Members()`prev
      ensures Valid() && active.Members() == old(active.Members()) - {es}
      ensures inactive.Members() == old(inactive.Members()) - {es}
    {
      hide Removed, List.Valid, HeadList.Valid;
      if es.data.active {
        ghost var c :| 0 <= c < |active.nodes| && active.nodes[c] == es;
        RemoveActive(es, c);
      } else {
        RemoveInactive(es);
      }
    }

    /** The loop body of ep_poll_tas: report the first active registration and move it to the back, or
        make it inactive if nothing is pending for it any more. */
    method ServeFirst(ghost es: Registration) returns (out: seq<Report>)
      requires Valid() && |active.nodes| > 0 && es == active.nodes[0]
      modifies `numActive, active, inactive, Members()`next, Members()`prev, es`data
      ensures Valid() && Members() == old(Members()) && es.data == old(es.data).(active := old(Ready(es)))
      ensures old(Ready(es)) ==> out == [old(ReportOf(es))] && inactive.nodes == old(inactive.nodes)
      ensures !old(Ready(es)) ==> out == [] && inactive.nodes == [es] + old(inactive.nodes)
      ensures active.nodes == old(active.nodes)[1..] + if old(Ready(es)) then [es] else []
    {
      hide Removed, List.Valid, HeadList.Valid, Meets;
      var first := active.First();
      RemovedFirst(active.nodes);
      assert active.nodes == [first] + active.nodes[1..];
      if Ready(first) {
        out := [ReportOf(first)];
        PushBack(first, 0);
      } else {
        out := [];
        Deactivate(first, 0);
      }
    }

    /** Part-way through ep_poll_tas, with i registrations served. */
    ghost predicate Serving(p: Progress, i: nat, out: seq<Report>, regs: seq<Registration>)
      reads *
    {
      && Valid() && Members() == p.members && Distinct(p.was) && Served(p.was, p.ready, i, regs, active.nodes)
      && (forall es <- p.was :: Ready(es) <==> es in p.ready)
      && |out| == |regs| && (forall j :: 0 <= j < |out| ==> out[j] == ReportOf(regs[j]))
      && (forall es <- inactive.Members() :: es in p.waiting || !Ready(es))
    }

    method ServeNext(ghost p: Progress, ghost i: nat, ghost first: Registration, out: seq<Report>,
                     ghost regs: seq<Registration>)
      returns (out': seq<Report>, ghost regs': seq<Registration>)
      requires Serving(p, i, out, regs) && i < |p.was| && first == p.was[i]
      modifies `numActive, active, inactive, Members()`next, Members()`prev, first`data
      ensures Serving(p, i + 1, out', regs') && |out'| <= |out| + 1
      ensures first.data.(active := true) == old(first.data).(active := true)
    {
      hide List.Valid, HeadList.Valid, Meets, Served;
      ServedNext(p.was, p.ready, i, regs, active.nodes);
      var report := ServeFirst(first);
      out' := out + report;
      regs' := if |report| > 0 then regs + [first] else regs;
    }

    /** Reports of distinct registrations that are active and ready. */
    ghost predicate Reported(out: seq<Report>, regs: seq<Registration>)
      reads *
    {
      && |out| == |regs| && (forall j :: 0 <= j < |out| ==> out[j] == ReportOf(regs[j]))
      && Distinct(regs) && forall es <- regs :: es in active.nodes && Ready(es)
    }

    /** ep_poll_tas: every ready registration is reported at most once, and all of them if there is room.
        Reported registrations move behind those not yet served; others become inactive. */
    method PollTas(maxEvents: nat) returns (out: seq<Report>, ghost regs: seq<Registration>, ghost k: nat)
      requires Valid()
      modifies `numActive, active, inactive, Members()`next, Members()`prev, active.Members()`data
      ensures Valid() && Members() == old(Members()) && |out| <= maxEvents && Reported(out, regs)
      ensures Served(old(active.nodes), old(set es | es in active.nodes && Ready(es)), k, regs, active.nodes)
      ensures |out| < maxEvents ==> k == |old(active.nodes)| && active.nodes == regs
      ensures forall es <- inactive.Members() :: es in old(inactive.Members()) || !Ready(es)
      ensures forall es <- old(active.nodes) :: es.data.(active := true) == old(es.data)
    {
      hide List.Valid, HeadList.Valid, Meets, Served;
      ghost var p := Progress(active.nodes, (set es | es in active.nodes && Ready(es)), Members(), inactive.Members());
      out, regs, k := [], [], 0;
      var num, i := numActive, 0;
      DistinctNodes();
      ServedNone(p.was, p.ready);
      while i < num && |out| < maxEvents
        invariant i <= num == |p.was| && |out| <= maxEvents && Serving(p, i, out, regs)
        invariant forall es <- p.was :: es.data.(active := true) == old(es.data)
      {
        out, regs := ServeNext(p, i, p.was[i], out, regs);
        i := i + 1;
      }
      k := i;
      ServedAll(p.was, p.ready, k, regs, active.nodes);
    }
  }
}
