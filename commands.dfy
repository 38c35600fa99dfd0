/** The command registry of cmd/metric/metric.go: a CmdSet maps command
    names to handlers and keeps the names and their help lines, in
    registration order, for the usage listing. */
module Commands {

  /** The handlers metric.go registers, one per do* function. Calling a
      handler is outside the model, so a handler is just its identity. */
  datatype Handler = Agents | Sims | Inv | Created | DeploySeries | Flow | InvSeries | FlowGraph | Energy

  /** What Execute does with a command line: run the registered handler
      for the command name, or fall back to the custom-query path; either
      way with the arguments after the name. */
  datatype Dispatch =
    | Registered(name: string, handler: Handler, args: seq<string>)
    | Custom(name: string, args: seq<string>)

  class CmdSet {
    var funcs: map<string, Handler>
    var names: seq<string>
    var helps: seq<string>

    /** Names and help lines are parallel lists, and the names listed are
        exactly the names that have a handler. */
    ghost predicate Valid()
      reads this
    {
      && |names| == |helps|
      && forall n :: n in funcs <==> n in names
    }

    /** NewCmdSet: an empty registry. */
    constructor ()
      ensures Valid()
      ensures funcs == map[] && names == [] && helps == []
    {
      funcs := map[];
      names := [];
      helps := [];
    }

    /** Register: appends the name and its help line, and binds the name to
        f. A name registered twice is listed twice; the later handler wins. */
    method Register(name: string, brief: string, f: Handler)
      requires Valid()
      modifies this
      ensures Valid()
      ensures names == old(names) + [name]
      ensures helps == old(helps) + [brief]
      ensures funcs == old(funcs)[name := f]
    {
      names := names + [name];
      helps := helps + [brief];
      funcs := funcs[name := f];
    }

    /** Execute: dispatches on the first argument. Go indexes args[0]
        without a check, so an empty command line is the caller's fault;
        main only calls Execute with at least one argument. */
    method Execute(args: seq<string>) returns (d: Dispatch)
      requires Valid()
      requires |args| > 0
      ensures d.name == args[0] && d.args == args[1..]
      ensures d.Registered? <==> args[0] in funcs
      ensures d.Registered? <==> args[0] in names
      ensures d.Registered? ==> d.handler == funcs[args[0]]
    {
      var cmd := args[0];
      if cmd !in funcs {
        d := Custom(cmd, args[1..]);
        return;
      }
      d := Registered(cmd, funcs[cmd], args[1..]);
    }
  }

  /** The names init registers, in order. */
  const CommandNames: seq<string> :=
    ["agents", "sims", "inv", "created", "deployseries", "flow", "invseries", "flowgraph", "energy"]

  /** The handler init registers under each name. */
  const CommandHandlers: seq<Handler> :=
    [Agents, Sims, Inv, Created, DeploySeries, Flow, InvSeries, FlowGraph, Energy]

  /** The help line init registers with each name. */
  const CommandHelps: seq<string> := [
    "list all agents in the simulation",
    "list all simulations in the database",
    "show inventory of one or more agents at a specific timestep",
    "show material created by one or more agents between specific timesteps",
    "print a time-series of a prototype's total active deployments",
    "Show total transacted material between two groups of agents between specific timesteps",
    "print a time series of an agent's inventory for specified isotopes",
    "print a graphviz dot graph of resource arcs between facilities",
    "print thermal energy (J) generated by the simulation between 2 timesteps"
  ]

  /** The map a run of registrations builds: each name bound in turn, so
      a later binding of a name replaces an earlier one. */
  function Bindings(names: seq<string>, handlers: seq<Handler>): map<string, Handler>
    requires |names| == |handlers|
  {
    if names == [] then map[]
    else Bindings(names[..|names| - 1], handlers[..|handlers| - 1])[names[|names| - 1] := handlers[|handlers| - 1]]
  }

  /** A registered name is bound to the handler of its last registration. */
  lemma {:induction false} BindingsLookup(names: seq<string>, handlers: seq<Handler>, k: nat)
    requires |names| == |handlers| && k < |names|
    requires forall j :: k < j < |names| ==> names[j] != names[k]
    ensures names[k] in Bindings(names, handlers)
    ensures Bindings(names, handlers)[names[k]] == handlers[k]
  {
    var last := |names| - 1;
    if k < last {
      BindingsLookup(names[..last], handlers[..last], k);
    }
  }

  /** Registering one more name extends the map by that binding. */
  lemma BindingsSnoc(names: seq<string>, handlers: seq<Handler>, k: nat)
    requires |names| == |handlers| && k < |names|
    ensures Bindings(names[..k + 1], handlers[..k + 1]) == Bindings(names[..k], handlers[..k])[names[k] := handlers[k]]
  {
    assert names[..k + 1][..k] == names[..k];
    assert handlers[..k + 1][..k] == handlers[..k];
  }

  /** The name-to-handler map init builds: the names bound in turn. */
  const CommandFuncs: map<string, Handler> := Bindings(CommandNames, CommandHandlers)

  /** The bindings of init's first three registrations, written out. */
  lemma FirstBindings()
    ensures Bindings(CommandNames[..3], CommandHandlers[..3]) == map["agents" := Agents, "sims" := Sims, "inv" := Inv]
  {
    assert CommandNames[..0] == [] && CommandHandlers[..0] == [];
    BindingsSnoc(CommandNames, CommandHandlers, 0);
    BindingsSnoc(CommandNames, CommandHandlers, 1);
    BindingsSnoc(CommandNames, CommandHandlers, 2);
  }

  /** The bindings of init's first six registrations, written out. */
  lemma MiddleBindings()
    ensures Bindings(CommandNames[..6], CommandHandlers[..6]) == map[
      "agents" := Agents, "sims" := Sims, "inv" := Inv,
      "created" := Created, "deployseries" := DeploySeries, "flow" := Flow]
  {
    FirstBindings();
    BindingsSnoc(CommandNames, CommandHandlers, 3);
    BindingsSnoc(CommandNames, CommandHandlers, 4);
    BindingsSnoc(CommandNames, CommandHandlers, 5);
  }

  /** The map init builds, written out. */
  lemma CommandFuncsValue()
    ensures CommandFuncs == map[
      "agents" := Agents, "sims" := Sims, "inv" := Inv, "created" := Created,
      "deployseries" := DeploySeries, "flow" := Flow, "invseries" := InvSeries,
      "flowgraph" := FlowGraph, "energy" := Energy]
  {
    MiddleBindings();
    BindingsSnoc(CommandNames, CommandHandlers, 6);
    BindingsSnoc(CommandNames, CommandHandlers, 7);
    BindingsSnoc(CommandNames, CommandHandlers, 8);
    assert CommandNames[..9] == CommandNames && CommandHandlers[..9] == CommandHandlers;
  }

  /** No name is registered twice by init. */
  lemma CommandNamesDistinct()
    ensures forall a, b :: 0 <= a < b < |CommandNames| ==> CommandNames[a] != CommandNames[b]
  {
  }

  /** The package-level registry as init leaves it: nine commands, listed in
      registration order, each name bound to its own handler. */
  method DefaultCommands() returns (cs: CmdSet)
    ensures fresh(cs) && cs.Valid()
    ensures cs.names == CommandNames && cs.helps == CommandHelps
    ensures cs.funcs == CommandFuncs
  {
    cs := new CmdSet();
    cs.Register("agents", CommandHelps[0], Agents);
    cs.Register("sims", CommandHelps[1], Sims);
    cs.Register("inv", CommandHelps[2], Inv);
    cs.Register("created", CommandHelps[3], Created);
    cs.Register("deployseries", CommandHelps[4], DeploySeries);
    cs.Register("flow", CommandHelps[5], Flow);
    cs.Register("invseries", CommandHelps[6], InvSeries);
    cs.Register("flowgraph", CommandHelps[7], FlowGraph);
    cs.Register("energy", CommandHelps[8], Energy);
    CommandFuncsValue();
  }

  /** main's last step: run the command line against the registry init
      built. A known command name reaches the handler init bound to it;
      any other name goes to the custom-query path. */
  method RunCommand(args: seq<string>) returns (d: Dispatch)
    requires |args| > 0
    ensures d.name == args[0] && d.args == args[1..]
    ensures d.Registered? <==> args[0] in CommandNames
    ensures forall k :: 0 <= k < |CommandNames| && CommandNames[k] == args[0] ==> d.Registered? && d.handler == CommandHandlers[k]
  {
    var cmds := DefaultCommands();
    d := cmds.Execute(args);
    CommandNamesDistinct();
    forall k | 0 <= k < |CommandNames| && CommandNames[k] == args[0]
      ensures d.Registered? && d.handler == CommandHandlers[k]
    {
      BindingsLookup(CommandNames, CommandHandlers, k);
      assert CommandFuncs[CommandNames[k]] == CommandHandlers[k];
    }
  }
}
