/** Sockets registered with any number of epoll instances (lib/sockets/epoll.c): no registration with
    pending events is ever off its active list. */
module EpollWorld {
  import opened Arith
  import opened EpollSet
  import opened LinkedList

  lemma RaisedMeets(events: Mask, evts: Mask, mask: Mask)
    ensures Meets(events + evts, mask) <==> Meets(events, mask) || Meets(evts - events, mask)
  {
    assert (events + evts) * mask == events * mask + (evts - events) * mask;
  }

  lemma ClearedMeets(events: Mask, evts: Mask, mask: Mask)
    requires Meets(events - evts, mask)
    ensures Meets(events, mask)
  {
    var f :| f in (events - evts) * mask;
    assert f in events * mask;
  }

  datatype CtlResult = Ok | EInval | EExist | ENoEnt

  /** The flags epoll_ctl does not support; edge triggering and exclusive wake-up are ignored. */
  function Unknown(events: Mask): Mask {
    events - {EdgeTriggered, Exclusive} - {In, Out, Err, Hup, RdHup}
  }

  /** The mask a registration gets; errors are always reported. */
  function Asked(events: Mask): Mask {
    events - {EdgeTriggered, Exclusive} + {Err}
  }

  lemma OneMore(was: set<Registration>, es: Registration, now: set<Registration>)
    requires es !in was && now == was + {es}
    ensures |now| == |was| + 1
  {
  }

  /** A socket's registrations after one with instance ep was put in front. */
  ghost predicate Added(was: seq<Registration>, eps: seq<Registration>, ep: Epoll, events: Mask, user: nat)
    reads eps
  {
    && |eps| > 0 && eps[1..] == was
    && eps[0].data.ep == ep && eps[0].data.mask == Asked(events) && eps[0].data.user == user
  }

  /** One of the registrations is with the instance. */
  predicate Names(eps: seq<Registration>, ep: Epoll)
    reads eps`data
  {
    exists x <- eps :: x.data.ep == ep
  }

  /** The socket is registered with the instance. */
  predicate Has(s: Socket, ep: Epoll)
    reads s`eps, s.eps`data
  {
    Names(s.eps, ep)
  }

  /** At most one of the registrations is with each instance. */
  ghost predicate OncePerEpoll(eps: seq<Registration>)
    reads eps`data
  {
    forall x <- eps, y <- eps :: x.data.ep == y.data.ep ==> x == y
  }

  /** Without one of them, the others name every instance but its own. */
  lemma NamesLess(was: seq<Registration>, es: Registration, now: seq<Registration>)
    requires OncePerEpoll(was) && es in was && forall x :: x in now <==> x in was && x != es
    ensures OncePerEpoll(now) && forall e :: Names(now, e) <==> Names(was, e) && e != es.data.ep
  {
    forall e | Names(was, e) && e != es.data.ep
      ensures Names(now, e)
    {
      var x :| x in was && x.data.ep == e;
      assert x in now;
    }
  }

  class World {
    ghost const epolls: set<Epoll>
    ghost const socks: set<Socket>

    /** Instances and sockets before anything is registered. */
    constructor (ghost epolls: set<Epoll>, ghost socks: set<Socket>)
      requires forall e <- epolls :: e.Valid() && e.Members() == {} && e.numTas == 0 && e.spurious == 0
      requires forall e <- epolls, f <- epolls :: e != f ==> e.active != f.active && e.inactive != f.inactive
      requires forall s <- socks :: s.eps == []
      ensures Valid() && this.epolls == epolls && this.socks == socks && forall e <- epolls :: Counted(e)
    {
      this.epolls, this.socks := epolls, socks;
      new;
      hide Valid, Epoll.Valid, Epoll.Members, U32;
      NothingRegistered();
      U32Near(0);
    }

    lemma NothingRegistered()
      requires forall e <- epolls :: e.Valid() && e.Members() == {}
      requires forall e <- epolls, f <- epolls :: e != f ==> e.active != f.active && e.inactive != f.inactive
      requires forall s <- socks :: s.eps == []
      ensures Valid()
    {
      hide Epoll.Valid, Ready;
      forall e <- epolls ensures e.inactive.Members() == {} {
        assert e.inactive.Members() <= e.Members();
      }
    }

    /** All list structures are sound. */
    ghost predicate Listed()
      reads *
    {
      && (forall e <- epolls, f <- epolls :: e != f ==> e.active != f.active && e.inactive != f.inactive)
      && forall e <- epolls :: e.Valid()
    }

    /** Registrations are on their socket's list, and what is on a socket's list is registered. */
    ghost predicate Joined()
      reads *
    {
      && (forall e <- epolls, es <- e.Members() :: es.data.sock in socks && es in es.data.sock.eps)
      && (forall s <- socks, es <- s.eps ::
           es.data.sock == s && es.data.ep in epolls && es in es.data.ep.Members())
      && (forall s <- socks :: Distinct(s.eps) && OncePerEpoll(s.eps))
    }

    ghost predicate Sound()
      reads *
    {
      Listed() && Joined()
    }

    /** Moving registrations between the lists of their instance keeps the lists joined. */
    twostate lemma StaysJoined()
      requires old(Joined()) && forall e <- epolls :: e.Members() == old(e.Members())
      requires forall s <- socks :: s.eps == old(s.eps)
      requires forall e <- epolls, es <- old(e.Members()) ::
        es.data.sock == old(es.data.sock) && es.data.ep == old(es.data.ep)
      ensures Joined()
    {
      hide OncePerEpoll;
      forall s <- socks, es <- s.eps
        ensures es.data.ep == old(es.data.ep) && es.data.sock == s && es.data.ep in epolls && es in es.data.ep.Members()
      {
        ghost var e := old(es.data.ep);
        assert es in old(e.Members());
      }
      StaysOnce();
    }

    twostate lemma StaysOnce()
      requires forall s <- socks :: old(OncePerEpoll(s.eps)) && s.eps == old(s.eps)
      requires forall s <- socks, x <- s.eps :: x.data.ep == old(x.data.ep)
      ensures forall s <- socks :: OncePerEpoll(s.eps)
    {
    }

    /** Every registration with pending events is active. */
    ghost predicate Complete()
      reads *
    {
      forall e <- epolls, es <- e.inactive.Members() :: !Ready(es)
    }

    ghost predicate Valid()
      reads *
    {
      Sound() && Complete()
    }

    ghost function Registered(): set<Registration>
      reads *
    {
      set e, es | e in epolls && es in e.Members() :: es
    }

    /** Different instances share no registration, since each names its instance. */
    lemma Apart(ep: Epoll)
      requires Listed() && ep in epolls
      ensures forall e <- epolls :: e != ep ==> e.Members() !! ep.Members()
    {
      forall e <- epolls, es <- e.Members() ensures es.data.ep == e {
      }
    }

    lemma ListsApart(ep: Epoll)
      requires Listed() && ep in epolls
      ensures ep.active.Members() !! ep.inactive.Members()
    {
    }

    lemma InList(es: Registration, s: Socket)
      requires Sound() && s in socks && es in s.eps
      ensures es.data.ep in epolls && es in es.data.ep.Members() && es.data.sock == s
      ensures forall e <- epolls :: e != es.data.ep ==> es !in e.Members()
    {
      Apart(es.data.ep);
    }

    lemma Enlisted()
      requires Joined()
      ensures forall e <- epolls, es <- e.inactive.Members() :: es in es.data.sock.eps
    {
      assert forall e <- epolls, es <- e.inactive.Members() :: es in e.Members();
    }

    lemma OnList(s: Socket, i: nat)
      requires Sound() && s in socks && i < |s.eps|
      ensures var es := s.eps[i]; es.data.ep in epolls && es in es.data.ep.Members()
    {
    }

    /** Put a registration on its active list; every other registration stays where it is. */
    method Activate(es: Registration)
      requires Sound() && es.data.ep in epolls && es in es.data.ep.Members()
      modifies es.data.ep`numActive, es.data.ep.active, es.data.ep.inactive
      modifies es.data.ep.Members()`next, es.data.ep.Members()`prev, es`data
      ensures Sound() && es.data == old(es.data).(active := true)
      ensures forall e <- epolls :: e.inactive.Members() == old(e.inactive.Members()) - {es}
      ensures forall e <- epolls :: e.Members() == old(e.Members())
    {
      hide Epoll.Valid, Joined;
      Apart(es.data.ep);
      es.data.ep.Activate(es);
      StaysJoined();
    }

    /** Part-way through raising events: inactive registrations had nothing pending before, and only
        those of `todo` may have something pending now. */
    ghost predicate Owed(s: Socket, was: Mask, risen: Mask, todo: seq<Registration>)
      reads *
    {
      forall e <- epolls, es <- e.inactive.Members() ::
        if es.data.sock == s then !Meets(was, es.data.mask) && (es in todo || !Meets(risen, es.data.mask))
        else !Ready(es)
    }

    method SetEvents(s: Socket, evts: Mask)
      requires Valid() && s in socks
      modifies s`epEvents
      ensures Sound() && s.epEvents == old(s.epEvents) + evts && Registered() == old(Registered())
      ensures Owed(s, old(s.epEvents), evts - old(s.epEvents), s.eps)
    {
      hide Meets, Epoll.Valid, Joined;
      ghost var was := s.epEvents;
      Enlisted();
      s.epEvents := s.epEvents + evts;
      StaysJoined();
      forall e <- epolls, es <- e.inactive.Members()
        ensures if es.data.sock == s then !Meets(was, es.data.mask) && es in s.eps else !Ready(es)
      {
        assert old(!Ready(es));
      }
    }

    /** flextcp_epoll_clear. */
    method Clear(s: Socket, evts: Mask)
      requires Valid() && s in socks
      modifies s`epEvents
      ensures Valid() && s.epEvents == old(s.epEvents) - evts
    {
      hide Meets, Epoll.Valid, Joined;
      ghost var was := s.epEvents;
      s.epEvents := s.epEvents - evts;
      StaysJoined();
      forall e <- epolls, es <- e.inactive.Members() ensures !Ready(es) {
        assert old(!Ready(es));
        if es.data.sock == s && Ready(es) {
          ClearedMeets(was, evts, es.data.mask);
        }
      }
    }

    /** The loop body of flextcp_epoll_set. */
    method RaiseOne(es: Registration, s: Socket, ghost was: Mask, risen: Mask, ghost rest: seq<Registration>)
      requires Sound() && Owed(s, was, risen, [es] + rest) && es.data.ep in epolls && es in es.data.ep.Members()
      modifies epolls`numActive, (set e | e in epolls :: e.active), (set e | e in epolls :: e.inactive), Registered()
      ensures Sound() && Owed(s, was, risen, rest) && Registered() == old(Registered())
      ensures forall e <- epolls :: e.Members() == old(e.Members())
    {
      hide Sound, Epoll.Valid, Meets;
      if Meets(risen, es.data.mask) {
        Activate(es);
      }
    }

    lemma AllRaised(s: Socket, was: Mask, evts: Mask)
      requires Owed(s, was, evts - was, []) && s.epEvents == was + evts
      ensures Complete()
    {
      hide Meets;
      forall e <- epolls, es <- e.inactive.Members() ensures !Ready(es) {
        if es.data.sock == s {
          RaisedMeets(was, evts, es.data.mask);
        }
      }
    }

    /** flextcp_epoll_set: raise events on a socket and activate the registrations that ask for one. */
    method Raise(s: Socket, evts: Mask)
      requires Valid() && s in socks
      modifies s`epEvents, epolls`numActive, (set e | e in epolls :: e.active), (set e | e in epolls :: e.inactive), Registered()
      ensures Valid() && s.epEvents == old(s.epEvents) + evts
      ensures forall e <- epolls :: e.Members() == old(e.Members())
    {
      hide Sound, Owed, Complete, Registered, Epoll.Members, HeadList.Members, List.Members;
      ghost var was := s.epEvents;
      var risen := evts - s.epEvents;
      if risen == {} {
        forall f <- evts ensures f in s.epEvents {
          assert f !in risen;
        }
        assert s.epEvents + evts == s.epEvents;
        return;
      }
      SetEvents(s, evts);
      var i := 0;
      assert s.eps[0..] == s.eps;
      while i < |s.eps|
        invariant i <= |s.eps| && Sound() && Owed(s, was, risen, s.eps[i..])
        invariant s.eps == old(s.eps) && s.epEvents == was + evts && Registered() == old(Registered())
        invariant forall e <- epolls :: e.Members() == old(e.Members())
      {
        assert s.eps[i..] == [s.eps[i]] + s.eps[i + 1..];
        OnList(s, i);
        RaiseOne(s.eps[i], s, was, risen, s.eps[i + 1..]);
        i := i + 1;
      }
      assert s.eps[i..] == [];
      AllRaised(s, was, evts);
    }

    /** The epoll_wait part for sockets: each ready registration of the instance is reported at most
        once, and all of them when fewer than maxEvents are returned. */
    method Poll(ep: Epoll, maxEvents: nat) returns (out: seq<Report>, ghost regs: seq<Registration>)
      requires Valid() && ep in epolls
      modifies ep`numActive, ep.active, ep.inactive, ep.Members()`next, ep.Members()`prev, ep.Members()`data
      ensures Valid() && forall e <- epolls :: e.Members() == old(e.Members())
      ensures |out| == |regs| <= maxEvents && Distinct(regs)
      ensures forall j :: 0 <= j < |out| ==> regs[j] in ep.Members() && Ready(regs[j]) && out[j] == ReportOf(regs[j])
      ensures |out| < maxEvents ==> forall es <- ep.Members() :: Ready(es) ==> es in regs
    {
      hide Epoll.Valid, Joined, Meets, Served;
      Apart(ep);
      ListsApart(ep);
      ghost var k;
      out, regs, k := ep.PollTas(maxEvents);
      StaysJoined();
      forall e <- epolls, es <- e.inactive.Members() ensures !Ready(es) {
        assert (e == ep && es !in old(ep.inactive.Members())) || old(!Ready(es));
      }
    }

    /** The search for the socket's registration with an instance. */
    method Lookup(ep: Epoll, s: Socket) returns (es: Node?<Info>)
      ensures es == null <==> !Has(s, ep)
      ensures es != null ==> es in s.eps && es.data.ep == ep
    {
      var i := 0;
      while i < |s.eps|
        invariant i <= |s.eps| && forall x <- s.eps[..i] :: x.data.ep != ep
      {
        if s.eps[i].data.ep == ep {
          return s.eps[i];
        }
        assert s.eps[..i + 1] == s.eps[..i] + [s.eps[i]];
        i := i + 1;
      }
      assert s.eps[..i] == s.eps;
      es := null;
    }

    twostate lemma AttachedOnce(es: Registration)
      requires forall s <- socks :: old(OncePerEpoll(s.eps)) && es !in old(s.eps)
      requires es.data.sock in socks && forall x <- old(es.data.sock.eps) :: x.data.ep != es.data.ep
      requires forall s <- socks :: s.eps == (if s == es.data.sock then [es] else []) + old(s.eps)
      requires es.data == old(es.data) && forall s <- socks, x <- old(s.eps) :: x.data == old(x.data)
      ensures forall s <- socks :: OncePerEpoll(s.eps)
    {
      forall s <- socks, x <- s.eps, y <- s.eps | x.data.ep == y.data.ep
        ensures x == y
      {
        assert x == es || x in old(s.eps);
        assert y == es || y in old(s.eps);
      }
    }

    twostate lemma AttachedJoined(es: Registration)
      requires old(Joined()) && es.data.ep in epolls && es.data.sock in socks
      requires forall s <- socks :: es !in old(s.eps)
      requires es.data == old(es.data) && forall x <- old(es.data.sock.eps) :: x.data.ep != es.data.ep
      requires forall e <- epolls :: e.Members() == old(e.Members()) + if e == es.data.ep then {es} else {}
      requires forall s <- socks :: s.eps == (if s == es.data.sock then [es] else []) + old(s.eps)
      requires forall e <- epolls, x <- old(e.Members()) :: x.data == old(x.data)
      ensures Joined()
    {
      hide OncePerEpoll, Distinct;
      AttachedOnce(es);
      forall s <- socks ensures Distinct(s.eps) {
        FrontDistinct(es, old(s.eps));
      }
      forall x <- socks, y <- x.eps
        ensures y.data.sock == x && y.data.ep in epolls && y in y.data.ep.Members()
      {
        if y != es {
          ghost var e := old(y.data.ep);
          assert y in old(e.Members());
        }
      }
    }

    lemma FrontDistinct(es: Registration, eps: seq<Registration>)
      requires Distinct(eps) && es !in eps
      ensures Distinct([es] + eps) && [] + eps == eps
    {
    }

    /** Put a new registration on its instance's inactive list. */
    method ListNew(es: Registration, ep: Epoll)
      requires Listed() && ep in epolls && es.data.ep == ep && !es.data.active && forall e <- epolls :: es !in e.Members()
      modifies ep.inactive, ep.inactive.Members()`prev, es`next, es`prev
      ensures Listed() && forall e <- epolls :: e.Members() == old(e.Members()) + if e == ep then {es} else {}
      ensures forall e <- epolls :: e.inactive.Members() == old(e.inactive.Members()) + if e == ep then {es} else {}
    {
      hide Epoll.Valid;
      Apart(ep);
      ep.AddInactive(es);
    }

    lemma OffSockets(es: Registration)
      requires Joined() && forall e <- epolls :: es !in e.Members()
      ensures forall s <- socks :: es !in s.eps
    {
      var ep := es.data.ep;
      assert ep in epolls ==> es !in ep.Members();
    }

    /** Put a new registration on its socket's list and on its instance's inactive list. */
    method Attach(es: Registration, ep: Epoll, s: Socket)
      requires Sound() && ep in epolls && s in socks && es.data.ep == ep && es.data.sock == s && !es.data.active
      requires !Has(s, ep) && forall e <- epolls :: es !in e.Members()
      modifies s`eps, ep.inactive, ep.inactive.Members()`prev, es`next, es`prev
      ensures Sound() && s.eps == [es] + old(s.eps)
      ensures forall e <- epolls :: e.Members() == old(e.Members()) + if e == ep then {es} else {}
      ensures forall e <- epolls :: e.inactive.Members() == old(e.inactive.Members()) + if e == ep then {es} else {}
    {
      hide Epoll.Valid, Joined;
      OffSockets(es);
      s.eps := [es] + s.eps;
      ListNew(es, ep);
      hide Listed;
      AttachedJoined(es);
    }

    /** Activate a registration if it is ready; only it may have been owed that. */
    method Settle(es: Registration)
      requires Sound() && es.data.ep in epolls && es in es.data.ep.Members()
      requires forall e <- epolls, x <- e.inactive.Members() :: x == es || !Ready(x)
      modifies es.data.ep`numActive, es.data.ep.active, es.data.ep.inactive
      modifies es.data.ep.Members()`next, es.data.ep.Members()`prev, es`data
      ensures Valid() && (forall e <- epolls :: e.Members() == old(e.Members()))
      ensures es.data.(active := true) == old(es.data).(active := true)
    {
      hide Sound, Meets;
      if Ready(es) {
        Activate(es);
      }
    }

    /** Register a socket with an instance for the events of a mask. */
    method Register(ep: Epoll, s: Socket, mask: Mask, user: nat) returns (es: Registration)
      requires Valid() && ep in epolls && s in socks && !Has(s, ep)
      modifies s`eps, ep`numActive, ep.active, ep.inactive, ep.Members()`next, ep.Members()`prev
      ensures Valid() && fresh(es) && s.eps == [es] + old(s.eps)
      ensures es.data.mask == mask && es.data.user == user && es.data.ep == ep && es.data.sock == s
      ensures ep.Members() == old(ep.Members()) + {es} && es !in old(ep.Members())
      ensures forall e <- epolls :: e != ep ==> e.Members() == old(e.Members())
    {
      hide Sound, Meets;
      es := new Node<Info>(Info(ep, s, mask, false, user));
      Attach(es, ep, s);
      Settle(es);
    }

    twostate lemma DetachedJoined(es: Registration)
      requires old(Joined()) && es.data.ep in epolls && es.data.sock in socks
      requires forall e <- epolls :: e.Members() == old(e.Members()) - {es}
      requires forall s <- socks :: Distinct(s.eps) && forall x :: x in s.eps <==> x in old(s.eps) && x != es
      requires forall e <- epolls, x <- old(e.Members()) :: x.data == old(x.data)
      ensures Joined()
    {
      forall x <- socks, y <- x.eps
        ensures y.data.sock == x && y.data.ep in epolls && y in y.data.ep.Members()
      {
        ghost var e := old(y.data.ep);
        assert y in old(e.Members());
      }
    }

    lemma OnSocket(es: Registration)
      requires Joined() && es.data.ep in epolls && es in es.data.ep.Members()
      ensures es.data.sock in socks && es in es.data.sock.eps && forall s <- socks :: Distinct(s.eps)
      ensures forall s <- socks :: s != es.data.sock ==> es !in s.eps
    {
    }

    /** Take a registration off its instance's list. */
    method Unlist(es: Registration)
      requires Listed() && es.data.ep in epolls && es in es.data.ep.Members()
      modifies es.data.ep`numActive, es.data.ep.active, es.data.ep.inactive
      modifies es.data.ep.Members()`next, es.data.ep.Members()`prev
      ensures Listed() && forall e <- epolls :: e.Members() == old(e.Members()) - {es}
      ensures forall e <- epolls :: e.inactive.Members() == old(e.inactive.Members()) - {es}
    {
      hide Epoll.Valid;
      Apart(es.data.ep);
      es.data.ep.RemoveEp(es);
    }

    /** Take a registration off its socket's list. */
    method UnlinkSocket(es: Registration, s: Socket)
      requires es in s.eps && Distinct(s.eps)
      modifies s`eps
      ensures |s.eps| == |old(s.eps)| - 1 && Distinct(s.eps) && forall x :: x in s.eps <==> x in old(s.eps) && x != es
    {
      var i := 0;
      while s.eps[i] != es
        invariant i < |s.eps| && es !in s.eps[..i]
        decreases |s.eps| - i
      {
        assert s.eps[..i + 1] == s.eps[..i] + [s.eps[i]];
        i := i + 1;
      }
      ghost var was := s.eps;
      s.eps := s.eps[..i] + s.eps[i + 1..];
      RemovedSet(was, i);
      assert s.eps == Removed(was, i);
    }

    /** Remove a registration. */
    method Deregister(es: Registration)
      requires Valid() && es.data.ep in epolls && es in es.data.ep.Members()
      modifies es.data.sock`eps, es.data.ep`numActive, es.data.ep.active, es.data.ep.inactive
      modifies es.data.ep.Members()`next, es.data.ep.Members()`prev
      ensures Valid() && forall e <- epolls :: e.Members() == old(e.Members()) - {es}
      ensures |es.data.sock.eps| == |old(es.data.sock.eps)| - 1
      ensures forall x :: x in es.data.sock.eps <==> x in old(es.data.sock.eps) && x != es
    {
      hide Meets, Sound, Epoll.Valid;
      Detach(es);
    }

    /** Take a registration off both its lists. */
    method Detach(es: Registration)
      requires Sound() && es.data.ep in epolls && es in es.data.ep.Members()
      modifies es.data.sock`eps, es.data.ep`numActive, es.data.ep.active, es.data.ep.inactive
      modifies es.data.ep.Members()`next, es.data.ep.Members()`prev
      ensures Sound() && forall e <- epolls :: e.Members() == old(e.Members()) - {es}
      ensures forall e <- epolls :: e.inactive.Members() == old(e.inactive.Members()) - {es}
      ensures |es.data.sock.eps| == |old(es.data.sock.eps)| - 1
      ensures forall x :: x in es.data.sock.eps <==> x in old(es.data.sock.eps) && x != es
    {
      hide Epoll.Valid, Distinct, Joined;
      OnSocket(es);
      UnlinkSocket(es, es.data.sock);
      Unlist(es);
      hide Listed;
      DetachedJoined(es);
    }

    /** Change the events a registration asks for. */
    method SetMask(es: Registration, mask: Mask)
      requires Valid() && es.data.ep in epolls && es in es.data.ep.Members()
      modifies es`data
      ensures Sound() && es.data == old(es.data).(mask := mask)
      ensures forall e <- epolls, x <- e.inactive.Members() :: x == es || !Ready(x)
    {
      hide List.Valid, HeadList.Valid, Joined, Meets;
      es.data := es.data.(mask := mask);
      StaysJoined();
      forall e <- epolls, x <- e.inactive.Members() ensures x == es || !Ready(x) {
        assert old(!Ready(x));
      }
    }

    /** num_tas counts the registrations, except that a refused addition still counts one up, a refused
        removal one down, and closing a socket leaves its registrations counted. */
    ghost predicate Counted(ep: Epoll)
      reads ep`numTas, ep`spurious, ep.active`nodes, ep.inactive`nodes
    {
      ep.numTas == U32(|ep.Members()| + ep.spurious)
    }

    /** Change num_tas. */
    method Tally(ep: Epoll, delta: int, ghost extra: int)
      requires Valid() && ep in epolls
      modifies ep`numTas, ep`spurious
      ensures Valid() && ep.numTas == U32(old(ep.numTas) + delta) && ep.spurious == old(ep.spurious) + extra
    {
      hide List.Valid, HeadList.Valid, Joined, Ready, U32;
      ep.numTas := U32(ep.numTas + delta);
      ep.spurious := ep.spurious + extra;
      StaysJoined();
    }

    /** The counted part of an addition. */
    method AddNew(ep: Epoll, s: Socket, events: Mask, user: nat)
      requires Valid() && ep in epolls && s in socks && !Has(s, ep) && ep.numTas == U32(|ep.Members()| + ep.spurious + 1)
      modifies s`eps, ep`numActive, ep.active, ep.inactive, ep.Members()`next, ep.Members()`prev
      ensures Valid() && Counted(ep) && Added(old(s.eps), s.eps, ep, events, user)
      ensures ep.Members() == old(ep.Members()) + {s.eps[0]} && fresh(s.eps[0]) && s.eps[0].data.sock == s
      ensures forall e <- epolls :: e != ep ==> e.Members() == old(e.Members())
    {
      hide Sound, Complete, Epoll.Valid, Epoll.Members, U32;
      ghost var was := ep.Members();
      var es := Register(ep, s, Asked(events), user);
      OneMore(was, es, ep.Members());
    }

    /** EPOLL_CTL_ADD. */
    method CtlAdd(ep: Epoll, s: Socket, events: Mask, user: nat) returns (r: CtlResult)
      requires Valid() && Counted(ep) && ep in epolls && s in socks
      modifies s`eps, ep`numTas, ep`spurious, ep`numActive, ep.active, ep.inactive
      modifies ep.Members()`next, ep.Members()`prev
      ensures Valid() && Counted(ep)
      ensures r == if Unknown(events) != {} then EInval else if old(Has(s, ep)) then EExist else Ok
      ensures r.Ok? ==> Added(old(s.eps), s.eps, ep, events, user) && fresh(s.eps[0]) && s.eps[0].data.sock == s
      ensures r.Ok? ==> ep.Members() == old(ep.Members()) + {s.eps[0]}
      ensures !r.Ok? ==> s.eps == old(s.eps) && ep.Members() == old(ep.Members())
      ensures forall e <- epolls :: e != ep ==> e.Members() == old(e.Members())
      ensures ep.spurious == old(ep.spurious) + if r.EExist? then 1 else 0
    {
      hide Sound, Complete, Epoll.Valid, Epoll.Members, U32, Added;
      var found := Lookup(ep, s);
      if Unknown(events) != {} {
        return EInval;
      }
      U32Absorb(|ep.Members()| + ep.spurious, 1);
      Tally(ep, 1, if found != null then 1 else 0);
      if found != null {
        return EExist;
      }
      AddNew(ep, s, events, user);
      r := Ok;
    }

    /** Give a registration a new mask and activate it if it is now ready. */
    method Modify(es: Registration, mask: Mask)
      requires Valid() && es.data.ep in epolls && es in es.data.ep.Members()
      modifies es.data.ep`numActive, es.data.ep.active, es.data.ep.inactive
      modifies es.data.ep.Members()`next, es.data.ep.Members()`prev, es`data
      ensures Valid() && forall e <- epolls :: e.Members() == old(e.Members())
      ensures es.data.(active := true) == old(es.data).(mask := mask, active := true)
    {
      hide Sound, Complete, Epoll.Valid, Epoll.Members;
      SetMask(es, mask);
      Settle(es);
    }

    /** EPOLL_CTL_MOD: the registration of the socket with the instance, and no other, gets the new mask. */
    method CtlMod(ep: Epoll, s: Socket, events: Mask) returns (r: CtlResult)
      requires Valid() && ep in epolls && s in socks
      modifies ep`numActive, ep.active, ep.inactive, ep.Members()
      ensures Valid() && forall e <- epolls :: e.Members() == old(e.Members())
      ensures r == if Unknown(events) != {} then EInval else if !old(Has(s, ep)) then ENoEnt else Ok
      ensures forall x <- old(With(s, ep)) ::
        x.data.(active := true) == old(x.data).(mask := if r.Ok? then Asked(events) else old(x.data.mask), active := true)
      ensures forall x <- old(ep.Members()) :: x !in old(With(s, ep)) ==> x.data == old(x.data)
    {
      hide Sound, Complete, Epoll.Valid;
      var found := Lookup(ep, s);
      OnlyOne(ep, s, found);
      if Unknown(events) != {} {
        return EInval;
      }
      if found == null {
        return ENoEnt;
      }
      InList(found, s);
      Modify(found, Asked(events));
      r := Ok;
    }

    /** The registrations of the socket with the instance: at most one. */
    ghost function With(s: Socket, ep: Epoll): set<Registration>
      reads s`eps, s.eps`data
    {
      set x | x in s.eps && x.data.ep == ep
    }

    lemma OnlyOne(ep: Epoll, s: Socket, found: Node?<Info>)
      requires Sound() && s in socks
      requires if found == null then !Has(s, ep) else found in s.eps && found.data.ep == ep
      ensures With(s, ep) == (if found == null then {} else {found}) && OncePerEpoll(s.eps)
    {
      hide Listed;
      assert OncePerEpoll(s.eps);
    }

    /** EPOLL_CTL_DEL. */
    method CtlDel(ep: Epoll, s: Socket) returns (r: CtlResult)
      requires Valid() && Counted(ep) && ep in epolls && s in socks
      modifies s`eps, ep`numTas, ep`spurious, ep`numActive, ep.active, ep.inactive
      modifies ep.Members()`next, ep.Members()`prev
      ensures Valid() && Counted(ep) && r == (if old(Has(s, ep)) then Ok else ENoEnt) && !Has(s, ep)
      ensures forall e <- epolls :: e.Members() == old(e.Members()) - old(With(s, ep))
      ensures ep.spurious == old(ep.spurious) - if r.ENoEnt? then 1 else 0
    {
      hide Sound, Complete, Epoll.Valid, Epoll.Members, U32, Names, OncePerEpoll;
      var found := Lookup(ep, s);
      OnlyOne(ep, s, found);
      U32Absorb(|ep.Members()| + ep.spurious, -1);
      Tally(ep, -1, if found == null then -1 else 0);
      if found == null {
        return ENoEnt;
      }
      ghost var was := ep.Members();
      InList(found, s);
      Deregister(found);
      NamesLess(old(s.eps), found, s.eps);
      OneMore(ep.Members(), found, was);
      r := Ok;
    }

    lemma Elsewhere(es: Registration)
      requires Sound() && es.data.ep in epolls && es in es.data.ep.Members()
      ensures forall e <- epolls :: e != es.data.ep ==> es !in e.Members()
    {
      Apart(es.data.ep);
    }

    /** Remove a registration but leave it counted. */
    method Drop(es: Registration, ghost ep: Epoll)
      requires Valid() && es.data.ep == ep && ep in epolls && es in ep.Members() && Counted(ep)
      modifies es.data.sock`eps, ep`numTas, ep`spurious, ep`numActive, ep.active, ep.inactive
      modifies ep.Members()`next, ep.Members()`prev
      ensures Valid() && Counted(ep) && ep.numTas == old(ep.numTas) && ep.spurious == old(ep.spurious) + 1
      ensures forall e <- epolls :: e.Members() == old(e.Members()) - {es}
      ensures forall e <- epolls :: e != ep ==> e.Members() == old(e.Members())
      ensures |es.data.sock.eps| == |old(es.data.sock.eps)| - 1
      ensures forall x :: x in es.data.sock.eps <==> x in old(es.data.sock.eps) && x != es
    {
      hide Sound, Complete, Epoll.Valid, Epoll.Members, U32;
      ghost var was := ep.Members();
      Elsewhere(es);
      U32Absorb(|was| + ep.spurious, 0);
      Tally(es.data.ep, 0, 1);
      Deregister(es);
      OneMore(ep.Members(), es, was);
    }

    /** Remove the first registration of a socket but leave it counted. */
    method CloseOne(s: Socket, es: Registration, ghost ep: Epoll)
      requires Valid() && s in socks && |s.eps| > 0 && es == s.eps[0] && ep == es.data.ep && ep in epolls && Counted(ep)
      requires es in ep.Members() && es.data.sock == s
      modifies s`eps, ep`numTas, ep`spurious, ep`numActive, ep.active, ep.inactive
      modifies ep.Members()`next, ep.Members()`prev
      ensures Valid() && Counted(ep) && ep.numTas == old(ep.numTas) && ep.spurious == old(ep.spurious) + 1
      ensures |s.eps| == |old(s.eps)| - 1 && forall x :: x in s.eps <==> x in old(s.eps) && x != es
      ensures forall e <- epolls :: e.Members() == old(e.Members()) - {es}
      ensures forall e <- epolls :: e != ep ==> e.Members() == old(e.Members())
      ensures old(Has(s, ep)) && forall e <- epolls :: Has(s, e) <==> old(Has(s, e)) && e != ep
    {
      hide Sound, Complete, Epoll.Valid, Epoll.Members, U32, Names, OncePerEpoll;
      OnlyOne(ep, s, es);
      NameOf(s.eps, 0);
      Drop(es, ep);
      NamesLess(old(s.eps), es, s.eps);
    }

    lemma NameOf(eps: seq<Registration>, k: nat)
      requires k < |eps|
      ensures Names(eps, eps[k].data.ep)
    {
    }

    /** The loop body of flextcp_epoll_sockclose. */
    method CloseFirst(s: Socket, ghost es: Registration)
      requires Valid() && s in socks && |s.eps| > 0 && es == s.eps[0] && forall e <- epolls :: Counted(e)
      modifies s`eps, epolls, (set e | e in epolls :: e.active), (set e | e in epolls :: e.inactive)
      modifies Registered()`next, Registered()`prev
      ensures Valid() && forall e <- epolls :: Counted(e) && e.numTas == old(e.numTas)
      ensures |s.eps| == |old(s.eps)| - 1 && forall x :: x in s.eps <==> x in old(s.eps) && x != es
      ensures forall e <- epolls :: e.Members() == old(e.Members()) - {es}
      ensures forall e <- epolls :: e.spurious == old(e.spurious) + if e == es.data.ep then 1 else 0
      ensures es.data.ep in epolls && forall e <- epolls :: Has(s, e) <==> old(Has(s, e)) && e != es.data.ep
      ensures old(Has(s, es.data.ep))
    {
      hide Sound, Complete, Has, Epoll.Members, U32;
      InList(es, s);
      CloseOne(s, s.eps[0], es.data.ep);
    }

    /** flextcp_epoll_sockclose: no registration of the socket is left, and the instances still count them. */
    method SockClose(s: Socket)
      requires Valid() && s in socks && forall e <- epolls :: Counted(e)
      modifies s`eps, epolls, (set e | e in epolls :: e.active), (set e | e in epolls :: e.inactive)
      modifies Registered()`next, Registered()`prev
      ensures Valid() && s.eps == [] && forall e <- epolls :: Counted(e) && e.numTas == old(e.numTas)
      ensures forall e <- epolls :: e.Members() == old(e.Members()) - old(set x | x in s.eps)
      ensures forall e <- epolls :: e.spurious == old(e.spurious) + if old(Has(s, e)) then 1 else 0
    {
      hide Valid, Counted, Has, Epoll.Members;
      ghost var gone: set<Registration>, left: set<Epoll> := {}, {};
      while |s.eps| > 0
        invariant Valid() && forall e <- epolls :: Counted(e) && e.numTas == old(e.numTas)
        invariant forall x :: x in old(s.eps) <==> x in s.eps || x in gone
        invariant forall e <- epolls :: e.Members() == old(e.Members()) - gone
        invariant forall e <- epolls :: e.spurious == old(e.spurious) + if e in left then 1 else 0
        invariant left <= epolls && forall e <- epolls :: old(Has(s, e)) <==> Has(s, e) || e in left
        invariant forall e <- left :: !Has(s, e)
        decreases |s.eps|
      {
        ghost var es := s.eps[0];
        CloseFirst(s, es);
        gone, left := gone + {es}, left + {es.data.ep};
      }
      assert forall e <- epolls :: !Has(s, e) by { NoneLeft(s); }
      assert gone == old(set x | x in s.eps);
    }

    lemma NoneLeft(s: Socket)
      requires s.eps == []
      ensures forall e :: !Has(s, e)
    {
    }

    /** One pass of epoll_wait over the TAS sockets. It is skipped when num_tas is zero, so it misses ready
        registrations exactly when refused removals, less refused additions and registrations of closed
        sockets, equal the registrations. */
    method Wait(ep: Epoll, maxEvents: nat) returns (out: seq<Report>, ghost regs: seq<Registration>)
      requires Valid() && Counted(ep) && ep in epolls && 0 < maxEvents
      modifies ep`numActive, ep.active, ep.inactive, ep.Members()`next, ep.Members()`prev, ep.Members()`data
      ensures Valid() && Counted(ep) && |out| == |regs| <= maxEvents && Distinct(regs)
      ensures forall j :: 0 <= j < |out| ==> regs[j] in ep.Members() && Ready(regs[j]) && out[j] == ReportOf(regs[j])
      ensures |out| < maxEvents ==>
        ((forall es <- ep.Members() :: Ready(es) ==> es in regs) <==>
         U32(|ep.Members()| + ep.spurious) != 0 || forall es <- ep.Members() :: !Ready(es))
      ensures ep.Members() == old(ep.Members()) && (ep.numTas == 0 ==> out == [])
    {
      hide Sound, Complete, Epoll.Valid, Epoll.Members, U32;
      if ep.numTas == 0 {
        return [], [];
      }
      out, regs := Poll(ep, maxEvents);
    }
  }

  /** The only registration of an instance is made, and another socket is refused removal. */
  method AddThenRefuse(w: World, ep: Epoll, s: Socket, other: Socket) returns (refused: CtlResult)
    requires w.Valid() && ep in w.epolls && s in w.socks && other in w.socks && s != other
    requires w.Counted(ep) && ep.Members() == {} && ep.spurious == 0 && s.eps == other.eps == []
    modifies s`eps, other`eps, ep, ep.active, ep.inactive
    ensures w.Valid() && w.Counted(ep) && refused == ENoEnt && |s.eps| == 1 && fresh(s.eps[0])
    ensures s.eps[0].data.sock == s && s.eps[0].data.mask == Asked({In})
    ensures ep.Members() == {s.eps[0]} && ep.spurious == -1
  {
    hide World.Valid, World.Counted, Epoll.Valid, Epoll.Members;
    assert Unknown({In}) == {};
    var r := w.CtlAdd(ep, s, {In}, 0);
    assert w.With(other, ep) == {};
    refused := w.CtlDel(ep, other);
  }

  /** A readable socket is registered with an unused instance; another, which is not, is refused removal.
      The wait that follows returns nothing. */
  method RefusedRemovalHides(w: World, ep: Epoll, s: Socket, other: Socket)
    returns (refused: CtlResult, ready: bool, out: seq<Report>)
    requires w.Valid() && ep in w.epolls && s in w.socks && other in w.socks && s != other && In in s.epEvents
    requires w.Counted(ep) && ep.Members() == {} && ep.spurious == 0 && s.eps == other.eps == []
    modifies s`eps, other`eps, ep, ep.active, ep.inactive
    ensures refused == ENoEnt && ready && out == []
  {
    hide World.Valid, Epoll.Valid, Epoll.Members, U32, Meets;
    refused := AddThenRefuse(w, ep, s, other);
    AskedMeets(s.epEvents);
    ready := Ready(s.eps[0]);
    U32Near(0);
    ghost var regs;
    out, regs := w.Wait(ep, 1);
  }

  lemma AskedMeets(events: Mask)
    requires In in events
    ensures Meets(events, Asked({In}))
  {
    assert In in events * Asked({In});
  }

  /** One instance, one readable socket and one other, nothing registered. */
  method Scene() returns (w: World, ep: Epoll, s: Socket, other: Socket)
    ensures fresh(ep) && fresh(s) && fresh(other) && fresh(ep.active) && fresh(ep.inactive)
    ensures w.Valid() && w.Counted(ep) && w.epolls == {ep} && w.socks == {s, other} && s != other
    ensures ep.Members() == {} && ep.spurious == 0 && s.eps == other.eps == [] && s.epEvents == {}
  {
    hide World.Valid, Epoll.Valid, Epoll.Members, U32;
    ep := new Epoll();
    s := new Socket();
    other := new Socket();
    assert ep.Members() == {} by { Unused(ep); }
    w := new World({ep}, {s, other});
  }

  method RefusedRemovalExample() returns (refused: CtlResult, ready: bool, out: seq<Report>)
    ensures refused == ENoEnt && ready && out == []
  {
    hide World.Valid, Epoll.Valid, Epoll.Members, U32;
    var w, ep, s, other := Scene();
    w.Raise(s, {In});
    refused, ready, out := RefusedRemovalHides(w, ep, s, other);
  }

  lemma Unused(ep: Epoll)
    requires ep.active.nodes == [] && ep.inactive.nodes == []
    ensures ep.Members() == {}
  {
  }
}
