/** The argument split of the `flow` command in cmd/metric/metric.go: the
    agent ids before the first ".." are the sending group, those after it
    the receiving group. */
module FlowArgs {
  import opened SeqFacts

  /** One command-line argument of `flow`: the separator "..", an argument
      strconv.Atoi accepts (with its value), or one it rejects. */
  datatype Arg = Sep | Id(id: int) | NotAnId(text: string)

  /** How the split ends: two groups of agent ids, the usage message (no
      receiving agents), or a fatal error on an argument that is not an id. */
  datatype Outcome = Groups(from: seq<int>, to: seq<int>) | Usage | Fatal(text: string)

  predicate IsSep(a: Arg) { a.Sep? }

  predicate IsNotAnId(a: Arg) { a.NotAnId? }

  /** The index of the first argument satisfying p, or |s| when none does. */
  function Find(s: seq<Arg>, p: Arg -> bool): (k: nat)
    ensures k <= |s|
    ensures forall j :: 0 <= j < k ==> !p(s[j])
    ensures k < |s| ==> p(s[k])
  {
    if s == [] then 0
    else if p(s[0]) then 0
    else 1 + Find(s[1..], p)
  }

  /** The agent ids among the arguments, in order; separators are dropped. */
  function Ids(s: seq<Arg>): seq<int>
  {
    if s == [] then []
    else Ids(s[..|s| - 1]) + (if s[|s| - 1].Id? then [s[|s| - 1].id] else [])
  }

  /** The split, stated on the whole argument list: the first argument Atoi
      rejects is fatal; otherwise the ids before the first ".." send and the
      ids after it receive, and no receiving id means usage. */
  function SplitSpec(args: seq<Arg>): Outcome
  {
    var bad := Find(args, IsNotAnId);
    if bad < |args| then Fatal(args[bad].text)
    else
      var k := Find(args, IsSep);
      var to := if k < |args| then Ids(args[k + 1..]) else [];
      if |to| < 1 then Usage else Groups(Ids(args[..k]), to)
  }

  /** doFlow's split as a whole: its guard reads the global flag set's
      argument count, which also counts the command name, so fewer than two
      arguments after the name is usage before any argument is examined. */
  function FlowSpec(args: seq<Arg>): Outcome
  {
    if |args| + 1 < 3 then Usage else SplitSpec(args)
  }

  /** doFlow's guard and scan: too short an argument list is usage before
      any argument is examined; otherwise one pass with a `before` flag that
      the first ".." clears for good, skipping every "..". */
  method SplitFlow(args: seq<Arg>) returns (out: Outcome)
    ensures out == FlowSpec(args)
  {
    if |args| + 1 < 3 {
      out := Usage;
      return;
    }
    var from: seq<int> := [];
    var to: seq<int> := [];
    var before := true;
    var i := 0;
    ScanStart(args);
    while i < |args|
      invariant Scanned(args, i, before, from, to)
    {
      var arg := args[i];
      if arg.Sep? {
        ScanSep(args, i, before, from, to);
        before := false;
        i := i + 1;
        continue;
      }
      if arg.NotAnId? {
        ScanFatal(args, i, before, from, to);
        out := Fatal(arg.text);
        return;
      }
      ScanId(args, i, before, from, to);
      if before {
        from := from + [arg.id];
      } else {
        to := to + [arg.id];
      }
      i := i + 1;
    }
    ScanEnd(args, before, from, to);
    if |to| < 1 {
      out := Usage;
      return;
    }
    out := Groups(from, to);
  }

  /** The scan's state after the first i arguments: no rejected argument
      among them; `before` holds until the first ".." is passed; `from`
      holds the ids before it and `to` those after it. */
  ghost predicate Scanned(args: seq<Arg>, i: nat, before: bool, from: seq<int>, to: seq<int>)
  {
    var sep, bad := Find(args, IsSep), Find(args, IsNotAnId);
    && i <= |args| && i <= bad
    && (before <==> i <= sep)
    && (before ==> from == Ids(args[..i]) && to == [])
    && (!before ==> sep < i && from == Ids(args[..sep]) && to == Ids(args[sep + 1..i]))
  }

  /** Nothing scanned yet. */
  lemma ScanStart(args: seq<Arg>)
    ensures Scanned(args, 0, true, [], [])
  {
    assert args[..0] == [];
  }

  /** A ".." ends the sending group, or is skipped once it has ended. */
  lemma ScanSep(args: seq<Arg>, i: nat, before: bool, from: seq<int>, to: seq<int>)
    requires Scanned(args, i, before, from, to) && i < |args| && args[i].Sep?
    ensures Scanned(args, i + 1, false, from, to)
  {
    var sep := Find(args, IsSep);
    if before {
      assert sep == i;
      assert args[i + 1..i + 1] == [];
    } else {
      IdsStep(args, sep + 1, i);
    }
  }

  /** An id joins the group the scan is in. */
  lemma ScanId(args: seq<Arg>, i: nat, before: bool, from: seq<int>, to: seq<int>)
    requires Scanned(args, i, before, from, to) && i < |args| && args[i].Id?
    ensures before ==> Scanned(args, i + 1, true, from + [args[i].id], to)
    ensures !before ==> Scanned(args, i + 1, false, from, to + [args[i].id])
  {
    if before {
      PrefixExtend(args, i);
      IdsSnoc(args[..i], args[i]);
    } else {
      IdsStep(args, Find(args, IsSep) + 1, i);
    }
  }

  /** The first argument Atoi rejects is the fatal one. */
  lemma ScanFatal(args: seq<Arg>, i: nat, before: bool, from: seq<int>, to: seq<int>)
    requires Scanned(args, i, before, from, to) && i < |args| && args[i].NotAnId?
    ensures SplitSpec(args) == Fatal(args[i].text)
  {
  }

  /** One more argument scanned: Ids of the slice grows by that argument's id, if any. */
  lemma IdsStep(args: seq<Arg>, lo: nat, i: nat)
    requires lo <= i < |args|
    ensures Ids(args[lo..i + 1]) == Ids(args[lo..i]) + (if args[i].Id? then [args[i].id] else [])
  {
    SliceExtend(args, lo, i);
    IdsSnoc(args[lo..i], args[i]);
  }

  /** Appending one argument appends its id, if it is one. */
  lemma IdsSnoc(s: seq<Arg>, a: Arg)
    ensures Ids(s + [a]) == Ids(s) + (if a.Id? then [a.id] else [])
  {
    assert (s + [a])[..|s|] == s;
  }

  /** The state the scan ends in gives the outcome SplitSpec describes. */
  lemma ScanEnd(args: seq<Arg>, before: bool, from: seq<int>, to: seq<int>)
    requires Scanned(args, |args|, before, from, to)
    ensures SplitSpec(args) == if |to| < 1 then Usage else Groups(from, to)
  {
    assert args[..|args|] == args;
    if !before {
      var sep := Find(args, IsSep);
      assert args[sep + 1..|args|] == args[sep + 1..];
    }
  }

  /** Ids distributes over concatenation. */
  lemma {:induction false} IdsAppend(a: seq<Arg>, b: seq<Arg>)
    ensures Ids(a + b) == Ids(a) + Ids(b)
  {
    if b != [] {
      var b' := b[..|b| - 1];
      assert (a + b)[..|a + b| - 1] == a + b';
      IdsAppend(a, b');
    } else {
      assert a + b == a;
    }
  }

  /** Ids keeps exactly the values of the id arguments. */
  lemma {:induction false} IdsMembers(s: seq<Arg>, v: int)
    ensures v in Ids(s) <==> Id(v) in s
  {
    if s != [] {
      var init := s[..|s| - 1];
      IdsMembers(init, v);
      assert s == init + [s[|s| - 1]];
    }
  }

  /** A well-formed split loses nothing and adds nothing: the two groups
      together are the ids of the whole argument list, in order, with every
      ".." removed. */
  lemma SplitKeepsIds(args: seq<Arg>)
    requires SplitSpec(args).Groups?
    ensures SplitSpec(args).from + SplitSpec(args).to == Ids(args)
  {
    var k := SplitShape(args);
    SplitAround(args, k);
    IdsSepDropped(args[..k], args[k + 1..]);
  }

  /** A split into groups happened at a separator, index k. */
  lemma SplitShape(args: seq<Arg>) returns (k: nat)
    requires SplitSpec(args).Groups?
    ensures k < |args| && args[k] == Sep
    ensures SplitSpec(args) == Groups(Ids(args[..k]), Ids(args[k + 1..]))
  {
    k := Find(args, IsSep);
  }

  /** A separator contributes no id. */
  lemma IdsSepDropped(a: seq<Arg>, b: seq<Arg>)
    ensures Ids(a + [Sep] + b) == Ids(a) + Ids(b)
  {
    assert Ids([Sep]) == [] by {
      assert [Sep][..0] == [];
    }
    IdsAppend(a, [Sep]);
    IdsAppend(a + [Sep], b);
  }

  /** The split at the first "..": ids before it send, ids after it
      receive, and a later ".." does not start a third group. */
  lemma SplitAtFirstSep(a: seq<Arg>, b: seq<Arg>)
    requires forall j :: 0 <= j < |a| ==> a[j].Id?
    requires forall j :: 0 <= j < |b| ==> !b[j].NotAnId?
    ensures SplitSpec(a + [Sep] + b) == if |Ids(b)| == 0 then Usage else Groups(Ids(a), Ids(b))
  {
    var args := a + [Sep] + b;
    assert args[|a|] == Sep;
    assert Find(args, IsSep) == |a|;
    forall j | 0 <= j < |args| ensures !IsNotAnId(args[j]) {
      if j > |a| {
        assert args[j] == b[j - |a| - 1];
      }
    }
    assert args[..|a|] == a && args[|a| + 1..] == b;
  }

  /** The guard only ever pre-empts a usage message or a fatal error: an
      argument list that short never splits into two groups. */
  lemma ShortNeverGroups(args: seq<Arg>)
    requires |args| < 2
    ensures FlowSpec(args) == Usage
    ensures !SplitSpec(args).Groups?
  {
    if |args| == 1 {
      assert args[1..] == [];
    }
  }

  /** Without a ".." every id sends and none receives: usage. */
  lemma NoSepIsUsage(args: seq<Arg>)
    requires forall j :: 0 <= j < |args| ==> args[j].Id?
    ensures SplitSpec(args) == Usage
  {
    assert Find(args, IsSep) == |args|;
  }

  /** As written, the scan runs over doFlow's raw arguments, flags included,
      so a list that begins with a flag such as "-t1" (which Atoi rejects)
      and passes the length guard is fatal. */
  lemma RawScanFatalOnFlag(flag: string, rest: seq<Arg>)
    requires |rest| >= 1
    ensures FlowSpec([NotAnId(flag)] + rest) == Fatal(flag)
  {
    assert ([NotAnId(flag)] + rest)[0] == NotAnId(flag);
  }

  /** The split over the arguments left once the flag set has parsed its
      flags. `consumed` stands for the number of arguments fs.Parse takes
      (the flags and their values); it is a parameter here, not derived,
      since flag parsing is not modelled. */
  function ParsedSplit(args: seq<Arg>, consumed: nat): Outcome
    requires consumed <= |args|
  {
    SplitSpec(args[consumed..])
  }

  /** With the flags consumed first, any flags before a well-formed
      "from .. to" list leave the two groups as they would be without them. */
  lemma ParsedSplitIgnoresFlags(flags: seq<Arg>, a: seq<Arg>, b: seq<Arg>)
    requires forall j :: 0 <= j < |a| ==> a[j].Id?
    requires forall j :: 0 <= j < |b| ==> !b[j].NotAnId?
    requires |Ids(b)| > 0
    ensures ParsedSplit(flags + a + [Sep] + b, |flags|) == Groups(Ids(a), Ids(b))
  {
    assert (flags + a + [Sep] + b)[|flags|..] == a + [Sep] + b;
    SplitAtFirstSep(a, b);
  }
}
