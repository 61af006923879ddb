/** A queue in the wrong list, reached from empty queues: a paced flow fires once and waits; then its rate limit is taken
    away; the next poll will leave it waiting without limit, although there is room for its bytes. */
module StrayQueue {
  import opened Timestamps
  import opened FlowQueues
  import opened FlowQman

  /** 4200 bytes, chunks of 1400, 1000 kbit/s. */
  const PACED := Change(1000, 4200, 1400, true, true, true, false)
  const UNLIMITED := Change(0, 0, 0, true, false, false, false)

  /** When the second chunk is due. */
  const LATER: nat := 11200000

  lemma Starts(q: Queues, g: Shadow)
    requires Adjusted(EmptyQueues(1, 0), EmptyShadow(1, 0), 0, PACED, q, g)
    ensures Starting(q, g, 1, 0) && g.vt == g.rt == 0 && q.rate == [1000] && q.maxChunk == [1400] && q.avail == [4200]
    ensures g.order == [0] && |g.due| == 1 && g.due[0] == 0 && !q.nolimitFirst
  {
    assert Stamp(0, MID) == 0 by { StampSmall(0); }
    assert Delay(1400, 1000) == LATER;
    hide Stamp, Delay;
    var none := seq(1, _ => 0);
    assert none[0 := 1000] == [1000] && none[0 := 1400] == [1400] && none[0 := 4200] == [4200];
  }

  lemma Strays(q0: Queues, g0: Shadow, q1: Queues, g1: Shadow, q2: Queues, g2: Shadow)
    requires g0.vt == 0 && g0.order == [0] && |g0.due| == 1 && g0.due[0] == 0
    requires q0.rate == [1000] && q0.maxChunk == [1400] && q0.avail == [4200]
    requires Spent(q0, g0, q1, g1) && g1.rt == 0 && g1.vt == 0 && Adjusted(q1, g1, 0, UNLIMITED, q2, g2) && q1.nolimitFirst
    ensures Stray(q2, g2, g2.vt + Gap(g2, LATER)) && Punctual(q2, g2, LATER)
  {
    assert Stamp(LATER, MID) == LATER by { StampSmall(LATER); }
    assert Delay(1400, 1000) == LATER;
    hide Stamp, Delay;
    assert q2.rate == [1000][0 := 0] == [0] && q2.avail == [2800] && q2.maxChunk == [1400];
    assert 0 in g2.order;
  }

  lemma PacedOk()
    ensures forall rate, chunk :: ChangeOk(rate, chunk, PACED) && ChangeOk(rate, chunk, UNLIMITED)
  {
    assert Delay(1400, 1000) == LATER;
  }

  /** By FlowQman.Poll, every poll at LATER that reports fewer events than asked for leaves something to do. */
  method StrayExample() returns (f: FlowQman)
    ensures f.Valid() && Punctual(f.q, f.g, LATER) && Stray(f.q, f.g, f.g.vt + Gap(f.g, LATER)) && !Homed(f.q, f.g)
  {
    hide Core, Busy, Sum, Stamp, Delay, Starting, Spent, Adjusted, Stray, ChangeOk, Logged, Homed,
         Drained, Blocked, Draining, EmptyQueues, EmptyShadow;
    assert Stamp(0, MID) == 0 by { StampSmall(0); }
    PacedOk();
    f := new FlowQman(1, 0);
    CoreFacts(f.q, f.g, 1);
    f.Set(0, PACED);
    Starts(f.q, f.g);
    ghost var q0, g0 := f.q, f.g;
    LateIff(f.q, f.g, 0);
    var shots, limited := f.Poll(16, 0, 16, 0);
    ghost var q1, g1 := f.q, f.g;
    f.Set(0, UNLIMITED);
    Strays(q0, g0, q1, g1, f.q, f.g);
    if Homed(f.q, f.g) {
      HomedNotStray(f.q, f.g, f.g.vt + Gap(f.g, LATER));
    }
  }
}
