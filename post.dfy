/** The utilities of post/util.go: a label-keyed stopwatch and a writer
    that discards its input. Wall-clock time is passed in as `now`. */
module Post {

  /** Timer: `starts` holds the start time of each running label, `totals`
      the time accumulated by each label over its finished runs. */
  class Timer {
    var starts: map<string, int>
    var totals: map<string, int>

    /** The accumulated time of a label; a label never stopped has none. */
    function Total(name: string): int
      reads this
    {
      if name in totals then totals[name] else 0
    }

    /** Every running label was started no later than `now`. */
    predicate StartedBy(now: int)
      reads this
    {
      forall l :: l in starts ==> starts[l] <= now
    }

    /** NewTimer: nothing running, nothing accumulated. */
    constructor ()
      ensures starts == map[] && totals == map[]
    {
      starts := map[];
      totals := map[];
    }

    /** Start: records `now` for the label unless it is already running,
        in which case its earlier start time stands. */
    method Start(name: string, now: int)
      modifies this
      ensures totals == old(totals)
      ensures name in old(starts) ==> starts == old(starts)
      ensures name !in old(starts) ==> starts == old(starts)[name := now]
      ensures name in starts
      ensures forall l :: l != name ==> (l in starts <==> l in old(starts))
      ensures forall l :: l != name && l in starts ==> starts[l] == old(starts)[l]
      ensures old(StartedBy(now)) ==> StartedBy(now)
    {
      if name !in starts {
        starts := starts[name := now];
      }
    }

    /** Stop: adds the time since the label's start to its total if it was
        running, and clears its running entry whether or not it was. */
    method Stop(name: string, now: int)
      modifies this
      ensures starts == old(starts) - {name}
      ensures name in old(starts) ==> totals == old(totals)[name := old(Total(name)) + (now - old(starts)[name])]
      ensures name !in old(starts) ==> totals == old(totals)
      ensures forall l :: l != name ==> Total(l) == old(Total(l))
      ensures old(StartedBy(now)) ==> Total(name) >= old(Total(name))
      ensures old(StartedBy(now)) ==> StartedBy(now)
    {
      if name in starts {
        var start := starts[name];
        totals := totals[name := Total(name) + (now - start)];
      }
      starts := starts - {name};
    }
  }

  /** The error result of a Go Write: nil, or an error with a message. */
  datatype Error = Nil | Failed(msg: string)

  /** NullWriter: an io.Writer that accepts and drops every byte. */
  datatype NullWriter = NullWriter {
    function Write(p: seq<bv8>): (int, Error)
    {
      (|p|, Nil)
    }
  }

  /** Write meets the io.Writer contract (0 <= n <= len(p), and an error
      whenever n < len(p)) in the strongest way: all of p is reported
      written and no error is returned. */
  lemma NullWriterWritesAll(w: NullWriter, p: seq<bv8>)
    ensures 0 <= w.Write(p).0 <= |p|
    ensures w.Write(p).0 < |p| ==> w.Write(p).1 != Nil
    ensures w.Write(p) == (|p|, Nil)
  {
  }
}
