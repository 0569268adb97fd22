/** What the imperative parts choose is what a step of the protocol may choose. */
module Bridge {
  import opened Types
  import opened Protocol
  import Victims

  /** The slabs of a queue. */
  function SidsOf(s: seq<Victims.Victim>): set<nat> { set v | v in s :: v.sid }

  lemma {:induction false} SidsCount(s: seq<Victims.Victim>)
    ensures |SidsOf(s)| <= |s|
  {
    if s != [] {
      var init, last := s[..|s| - 1], s[|s| - 1];
      SidsCount(init);
      assert SidsOf(s) == SidsOf(init) + {last.sid};
    }
  }

  /** The victims are full disk slabs. */
  ghost predicate AreFull(c: Config, s: State, all: seq<Victims.Victim>) {
    forall v :: v in all ==> c.IsDisk(v.sid) && v.sid < |s.slabs| && s.slabs[v.sid].link.DslabFull?
  }

  /** The heap of a normal pass, filled from the full lists, is a scan of the protocol. */
  lemma HeapScans(c: Config, s: State, channels: seq<seq<Victims.Victim>>, kept: seq<Victims.Victim>)
    returns (s': State)
    requires Fits(c, s) && s.gc.GNormal? && s.opsSize > 0 && AreFull(c, s, Victims.Flat(channels))
    requires Victims.Lightest(kept, Victims.Flat(channels), 3 * s.opsSize)
    ensures GcScan(c, s, s', SidsOf(kept))
  {
    hide Victims.Sorted, Victims.Weight;
    Victims.KeptFrom(kept, Victims.Flat(channels), 3 * s.opsSize);
    SidsCount(kept);
    s' := AfterScan(c, s, SidsOf(kept));
  }
}
