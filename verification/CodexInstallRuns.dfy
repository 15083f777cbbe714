/** What Codex installs and uninstalls keep, at every point of every run. */
module CodexInstallRuns {
  import opened PyText
  import opened ManagedBlocks
  import opened ManagedBlockLaws
  import opened CodexInstalls
  import opened CodexInstallLaws

  // ---------------------------------------------------------------- what is kept

  predicate SavesBlock(h: Home) {
    h.state.Some? && h.state.value.State? && h.state.value.saved.block.Some?
  }

  /** A complete managed block is in the config or in the saved state. */
  predicate BlockKept(h: Home) {
    HasBlock(Text(h.config)) || SavesBlock(h)
  }

  function SavedLinks(h: Home): map<Skill, Target> {
    if h.state.Some? && h.state.value.State? then h.state.value.saved.links else map[]
  }

  /** The link from a skill's path to a target is in place or in the saved state. */
  predicate LinkKept(h: Home, k: Skill, target: Target) {
    (k in h.links && h.links[k] == LinkTo(target)) || (k in SavedLinks(h) && SavedLinks(h)[k] == target)
  }

  /** Some link of the skill is in place or in the saved state. */
  predicate PathKept(h: Home, k: Skill) {
    (k in h.links && h.links[k].LinkTo?) || k in SavedLinks(h)
  }

  /** No link in place contradicts a saved one. */
  predicate Agree(h: Home) {
    forall k :: k in SavedLinks(h) && k in h.links && h.links[k].LinkTo? ==> h.links[k].target == SavedLinks(h)[k]
  }

  predicate Sound(h: Home) {
    Orderly(Text(h.config)) && Agree(h)
  }

  // ---------------------------------------------------------------- a crash during an installation

  /** What taking away may have changed: the config lost its block, and some of the links in `gone` are gone. */
  predicate Shrunk(h: Home, x: Home, gone: set<Skill>) {
    && x.state == h.state
    && (!Managed(Text(h.config)) ==> x.config == h.config)
    && (Orderly(Text(h.config)) ==> Orderly(Text(x.config)))
    && (forall k :: k in x.links ==> k in h.links && x.links[k] == h.links[k])
    && (forall k :: k in h.links && k !in gone ==> k in x.links)
  }

  predicate Removal(step: Step, gone: set<Skill>) {
    step.RemoveBlock? || (step.Unlink? && step.skill in gone)
  }

  lemma RemovalShrinks(h: Home, x: Home, env: Env, gone: set<Skill>, step: Step)
    requires Shrunk(h, x, gone) && Removal(step, gone)
    ensures Shrunk(h, Exec(x, env, step), gone)
  {
    hide Find, Remove, BEGIN, END, BlockEnd, MarkerFree, After, InOrder;
    if step.RemoveBlock? && Managed(Text(x.config)) && Orderly(Text(x.config)) {
      RemovedIsMarkerFree(Text(x.config));
      NoMarker(Remove(Text(x.config)).value);
    }
  }

  lemma {:induction false} RemovalsShrink(h: Home, x: Home, env: Env, gone: set<Skill>, steps: seq<Step>)
    requires Shrunk(h, x, gone) && forall s :: s in steps ==> Removal(s, gone)
    ensures Shrunk(h, ExecAll(x, env, steps), gone)
    decreases |steps|
  {
    hide Shrunk, Exec, Removal;
    if steps != [] {
      assert steps[0] in steps;
      RemovalShrinks(h, x, env, gone, steps[0]);
      RemovalsShrink(h, Exec(x, env, steps[0]), env, gone, steps[1..]);
    }
  }

  lemma {:induction false} UnlinksAreRemovals(links: map<Skill, Target>, from: nat)
    ensures forall s :: s in Unlinks(links, from) ==> Removal(s, links.Keys)
    decreases LEGACY_SKILLS - from
  {
    if from < LEGACY_SKILLS {
      UnlinksAreRemovals(links, from + 1);
    }
  }

  lemma NothingShrunk(h: Home, gone: set<Skill>)
    ensures Shrunk(h, h, gone) && Removal(RemoveBlock, gone)
  {
  }

  /** From its first step on, an installation has everything in the state file that its other steps take away. */
  lemma InstallAtCut(h: Home, env: Env, cut: nat)
    requires InstallPlan(h, env).Ok? && 0 < cut <= |InstallPlan(h, env).value|
    ensures var saved := Capture(h, Load(h, env.known).value, env.known).value;
            Shrunk(h.(state := Some(State(saved))), ExecAll(h, env, InstallPlan(h, env).value[..cut]),
                   ManagedLinks(h, env.known).Keys)
  {
    hide Find, Shrunk, Unlinks, Remove, Capture, Load, Removal, ManagedLinks;
    var steps, gone := InstallPlan(h, env).value, ManagedLinks(h, env.known).Keys;
    var saved := Capture(h, Load(h, env.known).value, env.known).value;
    var written := h.(state := Some(State(saved)));
    var rest := steps[..cut][1..];
    NothingShrunk(written, gone);
    UnlinksAreRemovals(ManagedLinks(h, env.known), 0);
    assert forall s :: s in rest ==> s in steps[1..];
    assert steps[1..] == [RemoveBlock] + Unlinks(ManagedLinks(h, env.known), 0);
    assert steps[..cut][0] == WriteState(saved);
    RemovalsShrink(written, written, env, gone, rest);
  }

  // ---------------------------------------------------------------- a crash during an uninstallation

  /**
   * What restoring may have changed before the state file: the config gained the saved block, free paths their links.
   */
  predicate Restored(h: Home, x: Home, saved: Saved) {
    && x.state == h.state
    && (saved.block == None ==> x.config == h.config)
    && (Orderly(Text(h.config)) ==> Orderly(Text(x.config)))
    && (forall k :: k in h.links ==> k in x.links && x.links[k] == h.links[k])
    && (forall k :: k in x.links && k !in h.links ==> k in saved.links && x.links[k] == LinkTo(saved.links[k]))
  }

  predicate Restores(step: Step, saved: Saved) {
    || step == RestoreBlock(saved)
    || (step.RestoreLink? && step.skill in saved.links && saved.links[step.skill] == step.target)
  }

  lemma RestoreStep(h: Home, x: Home, env: Env, saved: Saved, step: Step)
    requires Restored(h, x, saved) && Restores(step, saved) && Loads(saved, env.known)
    ensures Restored(h, Exec(x, env, step), saved)
  {
    hide Find, BEGIN, END, UNMANAGED, BlockEnd, MarkerFree, After, InOrder, Append, BlockLoads;
    if step.RestoreBlock? && saved.block.Some? && Appendable(Text(x.config)) {
      AppendableIsMarkerFree(Text(x.config));
      AppendedIsOrderly(Text(x.config), saved.block.value);
    }
  }

  lemma {:induction false} RestoreSteps(h: Home, x: Home, env: Env, saved: Saved, steps: seq<Step>)
    requires Restored(h, x, saved) && Loads(saved, env.known) && forall s :: s in steps ==> Restores(s, saved)
    ensures Restored(h, ExecAll(x, env, steps), saved)
    decreases |steps|
  {
    hide Restored, Exec, Restores, Loads;
    if steps != [] {
      assert steps[0] in steps;
      RestoreStep(h, x, env, saved, steps[0]);
      RestoreSteps(h, Exec(x, env, steps[0]), env, saved, steps[1..]);
    }
  }

  lemma {:induction false} RelinksRestore(saved: Saved, from: nat)
    ensures forall s :: s in Relinks(saved.links, from) ==> Restores(s, saved)
    decreases LEGACY_SKILLS - from
  {
    if from < LEGACY_SKILLS {
      RelinksRestore(saved, from + 1);
    }
  }

  lemma NothingRestored(h: Home, saved: Saved)
    ensures Restored(h, h, saved) && Restores(RestoreBlock(saved), saved)
  {
  }

  lemma LoadedLoads(h: Home, known: set<Target>)
    requires Load(h, known).Ok?
    ensures Loads(Load(h, known).value, known)
  {
    hide Find;
    EmptyLoads(known);
  }

  /** Before its last step, an uninstallation has not touched the state file. */
  lemma UninstallAtCut(h: Home, env: Env, cut: nat)
    requires UninstallPlan(h, env).Ok? && cut < |UninstallPlan(h, env).value|
    ensures Restored(h, ExecAll(h, env, UninstallPlan(h, env).value[..cut]), Load(h, env.known).value)
  {
    hide Find, Restored, Relinks, Load, PlanRestoration, ExecAll, Restores, Loads;
    var steps, saved := UninstallPlan(h, env).value, Load(h, env.known).value;
    var apply := [RestoreBlock(saved)] + Relinks(saved.links, 0);
    NothingRestored(h, saved);
    RelinksRestore(saved, 0);
    LoadedLoads(h, env.known);
    assert forall s :: s in steps[..cut] ==> s in apply;
    RestoreSteps(h, h, env, saved, steps[..cut]);
  }

  /** A complete uninstallation loses the block exactly when it mistakes markers in the wrong order for the block. */
  lemma UninstallLosesBlockIff(h: Home, env: Env)
    requires UninstallPlan(h, env).Ok? && BlockKept(h)
    ensures !BlockKept(ExecAll(h, env, UninstallPlan(h, env).value))
       <==> SavesBlock(h) && Managed(Text(h.config)) && BlockEnd(Text(h.config)) == None
  {
    hide Find, Append, ExecAll, UninstallSteps, BEGIN, END, UNMANAGED, BlockEnd, BlockLoads;
    CompletedUninstall(h, env);
    var saved := Load(h, env.known).value;
    if PlanRestoration(h, saved, env).config {
      AppendableIsMarkerFree(Text(h.config));
      AppendedIsOrderly(Text(h.config), saved.block.value);
      OrderlyHasBlock(Append(Text(h.config), saved.block.value));
    }
  }

  // ---------------------------------------------------------------- one command

  /** A command and how many of its steps happened before a crash; a dry run is a command without steps. */
  datatype Command = Command(install: bool, env: Env, cut: nat)

  function PlanOf(h: Home, c: Command): Result<seq<Step>> {
    if c.install then InstallPlan(h, c.env) else UninstallPlan(h, c.env)
  }

  function AfterCommand(h: Home, c: Command): Home {
    var plan := PlanOf(h, c);
    if plan.Err? then h
    else ExecAll(h, c.env, if c.cut < |plan.value| then plan.value[..c.cut] else plan.value)
  }

  /**
   * A complete uninstallation, with a block saved, of a config that has both markers but no end marker after the begin.
   */
  predicate LosesBlock(h: Home, c: Command) {
    && !c.install && PlanOf(h, c).Ok? && c.cut >= |PlanOf(h, c).value|
    && SavesBlock(h) && Managed(Text(h.config)) && BlockEnd(Text(h.config)) == None
  }

  /** An installation that begins while another managed link stands at the skill's path. */
  predicate DropsLink(h: Home, c: Command, k: Skill, target: Target) {
    && c.install && PlanOf(h, c).Ok? && c.cut > 0
    && k in ManagedLinks(h, c.env.known) && ManagedLinks(h, c.env.known)[k] != target
  }

  lemma InstallKeepsBlock(h: Home, env: Env, cut: nat)
    requires InstallPlan(h, env).Ok? && 0 < cut <= |InstallPlan(h, env).value|
    ensures BlockKept(ExecAll(h, env, InstallPlan(h, env).value[..cut])) <==> BlockKept(h)
  {
    hide Find, BEGIN, END, ExecAll, Unlinks, Orderly, ManagedLinks, BlockEnd, BlockLoads;
    InstallAtCut(h, env, cut);
  }

  lemma InstallKeepsLink(h: Home, env: Env, cut: nat, k: Skill, t: Target)
    requires InstallPlan(h, env).Ok? && 0 < cut <= |InstallPlan(h, env).value|
    ensures LinkKept(ExecAll(h, env, InstallPlan(h, env).value[..cut]), k, t)
       <==> LinkKept(h, k, t) && !(k in ManagedLinks(h, env.known) && ManagedLinks(h, env.known)[k] != t)
  {
    hide Find, BEGIN, END, ExecAll, Unlinks, Orderly, BlockEnd, BlockLoads, Managed, Extract, Remove;
    InstallAtCut(h, env, cut);
  }

  /** Whatever the config holds and wherever the command is cut off, it loses the block exactly under `LosesBlock`,
    * and a block that is neither in the config nor saved does not come back. */
  lemma CommandLosesBlockIff(h: Home, c: Command)
    ensures BlockKept(AfterCommand(h, c)) <==> BlockKept(h) && !LosesBlock(h, c)
  {
    hide Find, BEGIN, END, ExecAll, InstallPlan, BlockEnd, Managed, Loads, Append, Orderly;
    var plan := PlanOf(h, c);
    if plan.Ok? {
      if c.install {
        var cut := if c.cut < |plan.value| then c.cut else |plan.value|;
        if cut == 0 {
          NoSteps(h, c.env, plan.value);
        } else {
          assert plan.value[..|plan.value|] == plan.value;
          InstallKeepsBlock(h, c.env, cut);
        }
        InstallHasSteps(h, c.env);
      } else if c.cut < |plan.value| {
        UninstallAtCut(h, c.env, c.cut);
      } else {
        UninstallKeepsBlock(h, c.env);
      }
    }
  }

  lemma InstallHasSteps(h: Home, env: Env)
    requires InstallPlan(h, env).Ok?
    ensures InstallPlan(h, env).value != []
  {
    hide Find, Capture, Load, Remove;
  }

  lemma NoSteps(h: Home, env: Env, steps: seq<Step>)
    ensures ExecAll(h, env, steps[..0]) == h
  {
  }

  lemma UninstallKeepsBlock(h: Home, env: Env)
    requires UninstallPlan(h, env).Ok?
    ensures BlockKept(ExecAll(h, env, UninstallPlan(h, env).value))
       <==> BlockKept(h) && !(SavesBlock(h) && Managed(Text(h.config)) && BlockEnd(Text(h.config)) == None)
  {
    hide Find, Append, ExecAll, UninstallSteps, BEGIN, END, UNMANAGED, BlockEnd, BlockLoads;
    if BlockKept(h) {
      UninstallLosesBlockIff(h, env);
    } else {
      CompletedUninstall(h, env);
    }
  }

  lemma UninstallKeepsLink(h: Home, env: Env, k: Skill, t: Target)
    requires UninstallPlan(h, env).Ok?
    ensures LinkKept(ExecAll(h, env, UninstallPlan(h, env).value), k, t) <==> LinkKept(h, k, t)
  {
    hide Find, Append, ExecAll, UninstallSteps, BEGIN, END, UNMANAGED, BlockEnd, BlockLoads, Managed, Appendable;
    CompletedUninstall(h, env);
  }

  /** Wherever the command is cut off, it drops a link exactly under `DropsLink`, and makes none up. */
  lemma CommandDropsLinkIff(h: Home, c: Command, k: Skill, t: Target)
    ensures LinkKept(AfterCommand(h, c), k, t) <==> LinkKept(h, k, t) && !DropsLink(h, c, k, t)
  {
    hide Find, BEGIN, END, ExecAll, InstallPlan, BlockEnd, Managed, Loads, Append, Orderly, ManagedLinks;
    var plan := PlanOf(h, c);
    if plan.Ok? {
      if c.install {
        var cut := if c.cut < |plan.value| then c.cut else |plan.value|;
        if cut == 0 {
          NoSteps(h, c.env, plan.value);
        } else {
          assert plan.value[..|plan.value|] == plan.value;
          InstallKeepsLink(h, c.env, cut, k, t);
        }
        InstallHasSteps(h, c.env);
      } else if c.cut < |plan.value| {
        UninstallAtCut(h, c.env, c.cut);
      } else {
        UninstallKeepsLink(h, c.env, k, t);
      }
    }
  }

  // ---------------------------------------------------------------- runs

  function Run(h: Home, commands: seq<Command>): Home
    decreases |commands|
  {
    if commands == [] then h else Run(AfterCommand(h, commands[0]), commands[1..])
  }

  /** No command of the run is one that loses the block from where it starts. */
  predicate NeverLosesBlock(h: Home, commands: seq<Command>)
    decreases |commands|
  {
    commands == [] || (!LosesBlock(h, commands[0]) && NeverLosesBlock(AfterCommand(h, commands[0]), commands[1..]))
  }

  predicate NeverDropsLink(h: Home, commands: seq<Command>, k: Skill, t: Target)
    decreases |commands|
  {
    commands == [] || (!DropsLink(h, commands[0], k, t)
        && NeverDropsLink(AfterCommand(h, commands[0]), commands[1..], k, t))
  }

  /**
   * Over every run of installs and uninstalls from any home, whatever crashes: the block is kept exactly if it was
   * there and no command of the run loses it, a link exactly if it was there and no command of the run drops it.
   */
  lemma {:induction false} RunLosesExactly(h: Home, commands: seq<Command>, k: Skill, t: Target)
    ensures BlockKept(Run(h, commands)) <==> BlockKept(h) && NeverLosesBlock(h, commands)
    ensures LinkKept(Run(h, commands), k, t) <==> LinkKept(h, k, t) && NeverDropsLink(h, commands, k, t)
    decreases |commands|
  {
    hide BlockKept, LinkKept, AfterCommand, LosesBlock, DropsLink;
    if commands != [] {
      CommandLosesBlockIff(h, commands[0]);
      CommandDropsLinkIff(h, commands[0], k, t);
      RunLosesExactly(AfterCommand(h, commands[0]), commands[1..], k, t);
    }
  }

  /** What a caller can check before a run keeps every command of it from losing anything. */
  lemma SoundLosesNothing(h: Home, c: Command)
    requires Sound(h)
    ensures !LosesBlock(h, c)
    ensures forall k: Skill, t: Target :: LinkKept(h, k, t) ==> !DropsLink(h, c, k, t)
  {
    hide Find, BEGIN, END, BlockEnd, PlanOf;
    if Managed(Text(h.config)) {
      OrderlyIsComplete(Text(h.config));
    }
  }

  lemma SoundStays(h: Home, c: Command)
    requires Sound(h)
    ensures Sound(AfterCommand(h, c))
  {
    hide Find, BEGIN, END, ExecAll, BlockEnd, Managed, Loads, Append, Orderly, Remove, Extract, Unlinks, Relinks;
    var plan := PlanOf(h, c);
    if plan.Ok? {
      if c.install {
        var cut := if c.cut < |plan.value| then c.cut else |plan.value|;
        if cut == 0 {
          NoSteps(h, c.env, plan.value);
        } else {
          assert plan.value[..|plan.value|] == plan.value;
          InstallAtCut(h, c.env, cut);
        }
      } else if c.cut < |plan.value| {
        UninstallAtCut(h, c.env, c.cut);
      } else {
        UninstalledIsSound(h, c.env);
      }
    }
  }

  lemma UninstalledIsSound(h: Home, env: Env)
    requires Sound(h) && UninstallPlan(h, env).Ok?
    ensures Sound(ExecAll(h, env, UninstallPlan(h, env).value))
  {
    hide Find, Append, ExecAll, BEGIN, END, UNMANAGED, BlockEnd, BlockLoads, Orderly, UninstallSteps, Managed;
    CompletedUninstall(h, env);
    LoadedLoads(h, env.known);
    var saved := Load(h, env.known).value;
    if PlanRestoration(h, saved, env).config {
      AppendableIsMarkerFree(Text(h.config));
      AppendedIsOrderly(Text(h.config), saved.block.value);
    }
  }

  /** From a home whose block stands alone and whose links in place contradict no saved one, no run loses anything. */
  lemma {:induction false} NothingIsLost(h: Home, commands: seq<Command>, k: Skill, t: Target)
    requires Sound(h)
    ensures Sound(Run(h, commands))
    ensures BlockKept(Run(h, commands)) <==> BlockKept(h)
    ensures LinkKept(Run(h, commands), k, t) <==> LinkKept(h, k, t)
    decreases |commands|
  {
    hide Sound, BlockKept, LinkKept, AfterCommand, LosesBlock, DropsLink;
    if commands != [] {
      SoundLosesNothing(h, commands[0]);
      CommandLosesBlockIff(h, commands[0]);
      CommandDropsLinkIff(h, commands[0], k, t);
      SoundStays(h, commands[0]);
      NothingIsLost(AfterCommand(h, commands[0]), commands[1..], k, t);
    }
  }

  /** From any home at all, no run leaves a skill without a link that had one in place or saved. */
  lemma {:induction false} PathsAreKept(h: Home, commands: seq<Command>, k: Skill)
    requires PathKept(h, k)
    ensures PathKept(Run(h, commands), k)
    decreases |commands|
  {
    hide PathKept, AfterCommand;
    if commands != [] {
      CommandKeepsPath(h, commands[0], k);
      PathsAreKept(AfterCommand(h, commands[0]), commands[1..], k);
    }
  }

  lemma CommandKeepsPath(h: Home, c: Command, k: Skill)
    requires PathKept(h, k)
    ensures PathKept(AfterCommand(h, c), k)
  {
    var t := if k in h.links && h.links[k].LinkTo? then h.links[k].target else SavedLinks(h)[k];
    CommandDropsLinkIff(h, c, k, t);
    hide AfterCommand, PlanOf;
  }

  // ---------------------------------------------------------------- where the code falls short

  /** A block with a second begin marker is saved in a form no later command accepts: from the first
    * installation on, every run leaves the home as it is. Without one, uninstalling goes through. */
  lemma {:induction false} NestedBeginLocksTheState(h: Home, env: Env, commands: seq<Command>)
    requires h.state == None && HasBlock(Text(h.config))
    ensures InstallPlan(h, env).Ok?
    ensures var installed := ExecAll(h, env, InstallPlan(h, env).value);
            if Find(Extract(Text(h.config)).value.value, BEGIN, |BEGIN|) == None then UninstallPlan(installed, env).Ok?
            else Run(installed, commands) == installed
  {
    hide Find, ExecAll, BEGIN, END, BlockEnd, Extract, Run, ManagedLinks, BlockLoads;
    FirstInstall(h, env);
    var block := Extract(Text(h.config)).value.value;
    ExtractIsExtracted(Text(h.config));
    ExtractedLoads(block);
    LinksAreManaged(h, env);
    if !BlockLoads(block) {
      LockedStays(ExecAll(h, env, InstallPlan(h, env).value), commands);
    }
  }

  lemma {:induction false} LockedStays(h: Home, commands: seq<Command>)
    requires SavesBlock(h) && !BlockLoads(h.state.value.saved.block.value)
    ensures Run(h, commands) == h
    decreases |commands|
  {
    hide Find, BlockLoads, ExecAll;
    if commands != [] {
      LockedStays(h, commands[1..]);
    }
  }

  /**
   * A link in place wins over a saved one: a saved link that another managed link contradicts is dropped on install.
   */
  lemma LinkInPlaceWins(env: Env)
    requires {"a", "b"} <= env.known
    ensures var h := Home(None, Some(State(Saved(None, map[0 := "a"]))), map[0 := LinkTo("b")]);
            && InstallPlan(h, env).Ok? && LinkKept(h, 0, "a")
            && !LinkKept(ExecAll(h, env, InstallPlan(h, env).value), 0, "a")
  {
    hide Find, ExecAll, BEGIN, END, ManagedLinks, Unlinks;
    var h := Home(None, Some(State(Saved(None, map[0 := "a"]))), map[0 := LinkTo("b")]);
    MarkersAreApart();
    NothingIsIn(BEGIN);
    OneLinkLoads(env.known);
    assert ManagedLinks(h, env.known) == map[0 := "b"] by {
      OneManagedLink(h, env.known);
    }
    InstallHasSteps(h, env);
    var steps := InstallPlan(h, env).value;
    assert steps[..|steps|] == steps;
    InstallKeepsLink(h, env, |steps|, 0, "a");
  }

  lemma OneLinkLoads(known: set<Target>)
    requires "a" in known
    ensures Loads(Saved(None, map[0 := "a"]), known)
  {
    var links: map<Skill, Target> := map[0 := "a"];
    assert forall t :: t in links.Values ==> exists k :: k in links && links[k] == t;
  }

  lemma OneManagedLink(h: Home, known: set<Target>)
    requires h.links == map[0 := LinkTo("b")] && "b" in known
    ensures ManagedLinks(h, known) == map[0 := "b"]
  {
  }

  /** Two stray markers around the block, the end marker first. */
  function Misordered(body: string): string {
    END + "\n" + (Marked(body) + ("\n" + BEGIN + "\n"))
  }

  lemma MisorderedIsLeft(body: string)
    requires MarkerFree(body)
    ensures var c := Misordered(body);
            && HasBlock(c) && Extract(c) == Ok(Some(Block(body)))
            && Remove(c).Ok? && Managed(Remove(c).value) && BlockEnd(Remove(c).value) == None
  {
    hide Find, BEGIN, END, Rstrip, Marked, MarkerFree, Block;
    MarkersAreApart();
    EndIsText();
    NothingIsIn(BEGIN);
    NothingIsIn(END);
    ContainsOnOneSide(END, '\n', "", BEGIN);
    assert END + ['\n'] + "" == END + "\n";
    RemoveCuts(END + "\n", body, "\n" + BEGIN + "\n");
    RstripIs(END, "\n");
    BeginStripped();
    var left := END + "\n\n" + (BEGIN + "\n") + "\n";
    LeftoverIsMisordered();
  }

  lemma BeginStripped()
    ensures LstripNewlines("\n" + BEGIN + "\n") == BEGIN + "\n"
  {
    assert BEGIN[0] != '\n';
    hide BEGIN;
    assert ("\n" + BEGIN + "\n")[1..] == BEGIN + "\n";
  }

  lemma LeftoverIsMisordered()
    ensures var left := END + "\n\n" + (BEGIN + "\n") + "\n";
            Managed(left) && BlockEnd(left) == None
  {
    hide Find, BEGIN, END;
    MarkersAreApart();
    NothingIsIn(BEGIN);
    NothingIsIn(END);
    var head, rest := END + "\n\n", BEGIN + "\n\n";
    var left := END + "\n\n" + (BEGIN + "\n") + "\n";
    assert left == head + rest;
    FindIsFirst(rest, BEGIN, 0);
    FindIsFirst(left, END, 0);
    assert rest[..|BEGIN|] == BEGIN && Occurs(rest, BEGIN, 0);
    ContainsOnOneSide("", '\n', "", END);
    ContainsOnOneSide("", '\n', "", BEGIN);
    assert "" + ['\n'] + "" == "\n";
    ContainsOnOneSide(END, '\n', "\n", BEGIN);
    assert END + ['\n'] + "\n" == head;
    ContainsOnOneSide(BEGIN, '\n', "\n", END);
    assert BEGIN + ['\n'] + "\n" == rest;
    FindSkipsLines(head, rest, BEGIN);
    FindShifts(head, rest, BEGIN);
    FindShifts(head, rest, END);
    assert left[..|END|] == END && Occurs(left, END, 0);
  }

  /** Installing over such a config and uninstalling again loses the block: what removal leaves has both markers. */
  lemma MisorderedLeftoverLosesBlock(h: Home, env: Env, body: string)
    requires h.state == None && h.config == Some(Misordered(body)) && MarkerFree(body)
    ensures InstallPlan(h, env).Ok? && BlockKept(h)
    ensures var installed := ExecAll(h, env, InstallPlan(h, env).value);
            && UninstallPlan(installed, env).Ok? && BlockKept(installed)
            && !BlockKept(ExecAll(installed, env, UninstallPlan(installed, env).value))
  {
    hide Find, ExecAll, BEGIN, END, BlockEnd, Extract, Misordered, ManagedLinks, MarkerFree, Block, Remove;
    MisorderedIsLeft(body);
    FirstInstall(h, env);
    WrittenBlockLoads(body);
    LinksAreManaged(h, env);
    UninstallLosesBlockIff(ExecAll(h, env, InstallPlan(h, env).value), env);
  }

  lemma WrittenBlockLoads(body: string)
    requires MarkerFree(body)
    ensures BlockLoads(Block(body))
  {
    hide Find, BEGIN, END, Marked, MarkerFree;
    MarkersAreApart();
    MarkedSearch(body, "\n");
    var block := Block(body);
    MarkedStrips(body);
    assert block[|block| - 1] == '\n';
    ExtractedLoads(block);
    NoSecondBegin(body);
  }

  lemma NoSecondBegin(body: string)
    requires MarkerFree(body)
    ensures Find(Block(body), BEGIN, |BEGIN|) == None
  {
    hide Find, BEGIN, END, MarkerFree;
    MarkersAreApart();
    NothingIsIn(BEGIN);
    NoMarker(body);
    var rest := "\n" + (body + "\n" + (END + "\n"));
    assert Block(body) == BEGIN + rest;
    ContainsOnOneSide(END, '\n', "", BEGIN);
    assert END + ['\n'] + "" == END + "\n";
    ContainsOnOneSide(body, '\n', END + "\n", BEGIN);
    assert body + ['\n'] + (END + "\n") == body + "\n" + (END + "\n");
    ContainsOnOneSide("", '\n', body + "\n" + (END + "\n"), BEGIN);
    assert "" + ['\n'] + (body + "\n" + (END + "\n")) == rest;
    FindShifts(BEGIN, rest, BEGIN);
  }
}
