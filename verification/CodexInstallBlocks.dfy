/** Which managed block Codex installs and uninstalls keep: the very text, at every point of every run. */
module CodexInstallBlocks {
  import opened PyText
  import opened ManagedBlocks
  import opened ManagedBlockLaws
  import opened CodexInstalls
  import opened CodexInstallLaws
  import opened CodexInstallRuns

  /** The block in a text, from its first begin marker to the end marker after it. */
  predicate Holds(text: string, t: string) {
    Extract(text) == Ok(Some(t))
  }

  predicate InConfig(h: Home, t: string) {
    Holds(Text(h.config), t)
  }

  predicate InState(h: Home, t: string) {
    SavesBlock(h) && Holds(h.state.value.saved.block.value, t)
  }

  /** The block `t` is in the config or in the saved state. */
  predicate TextKept(h: Home, t: string) {
    InConfig(h, t) || InState(h, t)
  }

  // ---------------------------------------------------------------- blocks that move

  /** What is extracted is extracted from itself again. */
  lemma ExtractedHoldsItself(c: string)
    requires HasBlock(c)
    ensures Extract(c).Ok? && Extract(c).value.Some? && Holds(Extract(c).value.value, Extract(c).value.value)
  {
    var t := Extract(c).value.value;
    hide Find, BEGIN, END, BlockEnd;
    ExtractIsExtracted(c);
    ExtractedIsWhole(t);
  }

  lemma ExtractedIsWhole(t: string)
    requires IsExtracted(t)
    ensures Holds(t, t)
  {
    hide Find, BEGIN, END;
    OrderlyHasBlock(t);
    assert t[0..|t| - 1] + "\n" == t;
  }

  lemma OnlyBlocksHold(text: string, t: string)
    requires Holds(text, t)
    ensures HasBlock(text)
  {
    hide Find, BEGIN, END;
  }

  /** Behind whole lines without markers a block is found as it was. */
  lemma ShiftedHolds(head: string, block: string, t: string)
    requires WholeLines(head) && MarkerFree(head) && Managed(block) && InOrder(block)
    ensures Holds(head + block, t) <==> Holds(block, t)
  {
    hide Find, BEGIN, END, MarkerFree, WholeLines;
    ShiftedSearch(head, block);
    var shifted := head + block;
    OrderlyHasBlock(block);
    OrderlyHasBlock(shifted);
    var from, to := Find(block, BEGIN, 0).value, BlockEnd(block).value;
    assert shifted[|head| + from..|head| + to] == block[from..to];
  }

  lemma ShiftedSearch(head: string, block: string)
    requires WholeLines(head) && MarkerFree(head) && Managed(block) && InOrder(block)
    ensures Managed(head + block) && InOrder(head + block)
    ensures Find(head + block, BEGIN, 0) == Some(|head| + Find(block, BEGIN, 0).value)
    ensures Find(head + block, END, 0) == Some(|head| + Find(block, END, 0).value)
  {
    hide Find, BEGIN, END, WholeLines;
    MarkersAreLines();
    MarkerShifts(head, block, BEGIN);
    MarkerShifts(head, block, END);
  }

  lemma MarkerShifts(head: string, block: string, marker: string)
    requires WholeLines(head) && marker != "" && '\n' !in marker
    requires !Contains(head, marker) && Contains(block, marker)
    ensures Find(head + block, marker, 0) == Some(|head| + Find(block, marker, 0).value)
  {
    hide Find, WholeLines;
    FindSkipsLines(head, block, marker);
    FindShifts(head, block, marker);
  }

  /** A saved block put behind text without markers is found there as it was saved. */
  lemma AppendedHoldsTheSame(content: string, block: string, t: string)
    requires MarkerFree(content) && BlockLoads(block)
    ensures Holds(Append(content, block), t) <==> Holds(block, t)
  {
    hide Find, BEGIN, END, Rstrip, MarkerFree, BlockLoads, WholeLines, Extract, InOrder, After, Managed;
    LoadedBlockIsOrderly(block);
    RstripIsMarkerFree(content);
    var trail := RstripCuts(content);
    BlankLineAfter(Rstrip(content));
    assert Append(content, block) == Before(content) + block;
    ShiftedHolds(Before(content), block, t);
  }

  // ---------------------------------------------------------------- one command

  lemma {:induction false} UnlinksKeepConfig(h: Home, env: Env, steps: seq<Step>)
    requires forall s :: s in steps ==> s.Unlink?
    ensures ExecAll(h, env, steps).config == h.config
    decreases |steps|
  {
    hide Find;
    if steps != [] {
      assert steps[0] in steps;
      UnlinksKeepConfig(Exec(h, env, steps[0]), env, steps[1..]);
    }
  }

  lemma {:induction false} UnlinksUnlink(links: map<Skill, Target>, from: nat)
    ensures forall s :: s in Unlinks(links, from) ==> s.Unlink?
    decreases LEGACY_SKILLS - from
  {
    if from < LEGACY_SKILLS {
      UnlinksUnlink(links, from + 1);
    }
  }

  /** The config an installation leaves where it is cut off. */
  lemma InstallConfigAtCut(h: Home, env: Env, cut: nat)
    requires InstallPlan(h, env).Ok? && 0 < cut <= |InstallPlan(h, env).value|
    ensures ExecAll(h, env, InstallPlan(h, env).value[..cut]).config
         == if cut == 1 then h.config else Exec(h, env, RemoveBlock).config
  {
    hide Find, Unlinks, Remove, Capture, Load, ManagedLinks, Managed;
    var steps := InstallPlan(h, env).value;
    var links := ManagedLinks(h, env.known);
    var first := Exec(h, env, steps[0]);
    assert steps[..cut][0] == steps[0];
    if cut == 1 {
      assert steps[..cut] == [steps[0]];
      assert ExecAll(first, env, []) == first;
    } else {
      var rest := steps[..cut][1..];
      assert rest[0] == RemoveBlock;
      UnlinksUnlink(links, 0);
      assert forall s :: s in rest[1..] ==> s in Unlinks(links, 0);
      UnlinksKeepConfig(Exec(first, env, RemoveBlock), env, rest[1..]);
    }
  }

  lemma {:induction false} RelinksKeepConfig(h: Home, env: Env, steps: seq<Step>)
    requires forall s :: s in steps ==> s.RestoreLink?
    ensures ExecAll(h, env, steps).config == h.config
    decreases |steps|
  {
    hide Find;
    if steps != [] {
      assert steps[0] in steps;
      RelinksKeepConfig(Exec(h, env, steps[0]), env, steps[1..]);
    }
  }

  lemma {:induction false} RelinksRelink(links: map<Skill, Target>, from: nat)
    ensures forall s :: s in Relinks(links, from) ==> s.RestoreLink?
    decreases LEGACY_SKILLS - from
  {
    if from < LEGACY_SKILLS {
      RelinksRelink(links, from + 1);
    }
  }

  lemma UninstallConfigAtCut(h: Home, env: Env, cut: nat)
    requires UninstallPlan(h, env).Ok? && cut < |UninstallPlan(h, env).value|
    ensures ExecAll(h, env, UninstallPlan(h, env).value[..cut]).config
         == if cut == 0 then h.config else Exec(h, env, RestoreBlock(Load(h, env.known).value)).config
  {
    hide Find, Relinks, Load, PlanRestoration, Append, Appendable;
    var steps, saved := UninstallPlan(h, env).value, Load(h, env.known).value;
    if cut > 0 {
      var rest := steps[..cut][1..];
      assert steps[..cut][0] == RestoreBlock(saved);
      RelinksRelink(saved.links, 0);
      assert forall s :: s in rest ==> s in Relinks(saved.links, 0);
      RelinksKeepConfig(Exec(h, env, RestoreBlock(saved)), env, rest);
    }
  }

  /**
   * An installation that takes the config's block away while another is saved already, unless the same block comes
   * again behind it; or a complete uninstallation, with this block saved, of a managed config that holds another.
   */
  predicate LosesText(h: Home, c: Command, t: string) {
    && PlanOf(h, c).Ok? && SavesBlock(h)
    && if c.install then c.cut > 1 && !InState(h, t) && !LeftBehind(h, t)
       else c.cut >= |PlanOf(h, c).value| && Managed(Text(h.config)) && !InConfig(h, t)
  }

  /** The block is what a config holds once its first block is cut out. */
  predicate LeftBehind(h: Home, t: string) {
    Managed(Text(h.config)) && Remove(Text(h.config)).Ok? && Holds(Remove(Text(h.config)).value, t)
  }

  /** An installation that takes away the config's first block and so brings out the next. */
  predicate BringsOut(h: Home, c: Command, t: string) {
    c.install && PlanOf(h, c).Ok? && c.cut > 1 && LeftBehind(h, t)
  }

  lemma RemovedHolds(h: Home, env: Env, t: string)
    requires Remove(Text(h.config)).Ok?
    ensures Holds(Text(Exec(h, env, RemoveBlock).config), t) <==> LeftBehind(h, t)
  {
    hide Find, BEGIN, END, Remove, BlockEnd;
    if !Managed(Text(h.config)) {
      assert Extract(Text(h.config)) == Ok(None);
    }
  }

  lemma InstallKeepsText(h: Home, env: Env, cut: nat, t: string)
    requires InstallPlan(h, env).Ok? && 0 < cut <= |InstallPlan(h, env).value|
    ensures TextKept(ExecAll(h, env, InstallPlan(h, env).value[..cut]), t)
       <==> if cut == 1 then TextKept(h, t)
            else LeftBehind(h, t) || InState(h, t) || (!SavesBlock(h) && InConfig(h, t))
  {
    hide Find, BEGIN, END, ExecAll, Unlinks, Orderly, ManagedLinks, BlockEnd, BlockLoads, Remove, Extract, Managed;
    InstallAtCut(h, env, cut);
    InstallConfigAtCut(h, env, cut);
    CapturedHolds(h, env, t);
    RemovedHolds(h, env, t);
  }

  lemma CapturedHolds(h: Home, env: Env, t: string)
    requires InstallPlan(h, env).Ok?
    ensures Load(h, env.known).Ok? && Capture(h, Load(h, env.known).value, env.known).Ok?
    ensures Remove(Text(h.config)).Ok?
    ensures var saved := Capture(h, Load(h, env.known).value, env.known).value;
            (saved.block.Some? && Holds(saved.block.value, t)) <==>
              (InState(h, t) || (!SavesBlock(h) && InConfig(h, t)))
  {
    hide Find, BEGIN, END, Unlinks, ManagedLinks, BlockLoads, Remove;
    if !SavesBlock(h) && Managed(Text(h.config)) {
      ExtractedHoldsItself(Text(h.config));
    }
  }

  lemma UninstallCutKeepsText(h: Home, env: Env, cut: nat, t: string)
    requires UninstallPlan(h, env).Ok? && cut < |UninstallPlan(h, env).value|
    ensures TextKept(ExecAll(h, env, UninstallPlan(h, env).value[..cut]), t) <==> TextKept(h, t)
  {
    hide Find, BEGIN, END, UNMANAGED, ExecAll, Append, BlockLoads, BlockEnd, MarkerFree;
    UninstallAtCut(h, env, cut);
    UninstallConfigAtCut(h, env, cut);
    RestoredHolds(h, env, t);
  }

  lemma RestoredHolds(h: Home, env: Env, t: string)
    requires UninstallPlan(h, env).Ok?
    ensures Load(h, env.known).Ok?
    ensures var saved := Load(h, env.known).value;
            InConfig(Exec(h, env, RestoreBlock(saved)), t) <==>
              (InConfig(h, t) || (saved.block.Some? && Appendable(Text(h.config)) && InState(h, t)))
    ensures Appendable(Text(h.config)) ==> !InConfig(h, t)
  {
    hide Find, BEGIN, END, UNMANAGED, Append, BlockLoads, BlockEnd, MarkerFree;
    LoadedLoads(h, env.known);
    var saved := Load(h, env.known).value;
    if Appendable(Text(h.config)) {
      AppendableIsMarkerFree(Text(h.config));
      NoMarker(Text(h.config));
      if saved.block.Some? {
        AppendedHoldsTheSame(Text(h.config), saved.block.value, t);
      }
    }
  }

  lemma UninstallKeepsText(h: Home, env: Env, t: string)
    requires UninstallPlan(h, env).Ok?
    ensures TextKept(ExecAll(h, env, UninstallPlan(h, env).value), t)
       <==> TextKept(h, t) && !(SavesBlock(h) && Managed(Text(h.config)) && !InConfig(h, t))
  {
    hide Find, Append, ExecAll, UninstallSteps, BEGIN, END, UNMANAGED, BlockEnd, BlockLoads, Extract, Managed;
    CompletedUninstall(h, env);
    RestoredHolds(h, env, t);
    NotBoth(Text(h.config));
  }

  lemma NotBoth(c: string)
    ensures !(Appendable(c) && Managed(c))
  {
  }

  /** For every home, command and cut: the block is kept exactly if it was and is not lost, or if it is brought out. */
  lemma CommandLosesTextIff(h: Home, c: Command, t: string)
    ensures TextKept(AfterCommand(h, c), t) <==> (TextKept(h, t) && !LosesText(h, c, t)) || BringsOut(h, c, t)
  {
    hide Find, BEGIN, END, ExecAll, InstallPlan, UninstallPlan, Managed, Extract, LeftBehind;
    var plan := PlanOf(h, c);
    if plan.Ok? {
      if c.install {
        var cut := if c.cut < |plan.value| then c.cut else |plan.value|;
        InstallIsLong(h, c.env);
        if cut == 0 {
          NoSteps(h, c.env, plan.value);
        } else {
          assert plan.value[..|plan.value|] == plan.value;
          InstallKeepsText(h, c.env, cut, t);
        }
      } else if c.cut < |plan.value| {
        UninstallCutKeepsText(h, c.env, c.cut, t);
      } else {
        UninstallKeepsText(h, c.env, t);
      }
    }
  }

  lemma InstallIsLong(h: Home, env: Env)
    requires InstallPlan(h, env).Ok?
    ensures |InstallPlan(h, env).value| > 1
  {
    hide Find, Capture, Load, Remove;
  }

  // ---------------------------------------------------------------- runs

  predicate NeverLosesText(h: Home, commands: seq<Command>, t: string)
    decreases |commands|
  {
    commands == [] ||
    (!LosesText(h, commands[0], t) && NeverLosesText(AfterCommand(h, commands[0]), commands[1..], t))
  }

  predicate NeverBringsOut(h: Home, commands: seq<Command>, t: string)
    decreases |commands|
  {
    commands == [] ||
    (!BringsOut(h, commands[0], t) && NeverBringsOut(AfterCommand(h, commands[0]), commands[1..], t))
  }

  /**
   * Over every run from any home: a block no command loses is kept, and if none brings it out from behind another, it
   * is kept exactly if it was there and no command loses it.
   */
  lemma {:induction false} RunLosesTextExactly(h: Home, commands: seq<Command>, t: string)
    ensures TextKept(h, t) && NeverLosesText(h, commands, t) ==> TextKept(Run(h, commands), t)
    ensures NeverBringsOut(h, commands, t) ==>
              (TextKept(Run(h, commands), t) <==> TextKept(h, t) && NeverLosesText(h, commands, t))
    decreases |commands|
  {
    hide TextKept, AfterCommand, LosesText, BringsOut;
    if commands != [] {
      CommandLosesTextIff(h, commands[0], t);
      RunLosesTextExactly(AfterCommand(h, commands[0]), commands[1..], t);
    }
  }

  /** The config and the saved state do not hold different blocks. */
  ghost predicate SameBlock(h: Home) {
    forall t, u :: InConfig(h, t) && InState(h, u) ==> t == u
  }

  lemma SoundKeepsText(h: Home, c: Command, t: string)
    requires Sound(h) && SameBlock(h)
    ensures !BringsOut(h, c, t) && (TextKept(h, t) ==> !LosesText(h, c, t))
  {
    hide Find, BEGIN, END, PlanOf, Orderly, Remove, BlockEnd;
    if Managed(Text(h.config)) {
      RemovedIsMarkerFree(Text(h.config));
      NoMarker(Remove(Text(h.config)).value);
      OrderlyIsComplete(Text(h.config));
      assert InConfig(h, Extract(Text(h.config)).value.value);
    }
    if SavesBlock(h) && PlanOf(h, c).Ok? {
      SavedHolds(h, c);
    }
  }

  lemma SavedHolds(h: Home, c: Command)
    requires SavesBlock(h) && PlanOf(h, c).Ok?
    ensures exists u :: InState(h, u)
  {
    hide Find, BEGIN, END, BlockLoads;
    var block := h.state.value.saved.block.value;
    LoadedBlockIsOrderly(block);
    OrderlyHasBlock(block);
    assert InState(h, Extract(block).value.value);
  }

  lemma SameBlockStays(h: Home, c: Command)
    requires Sound(h) && SameBlock(h)
    ensures SameBlock(AfterCommand(h, c))
  {
    hide Sound, AfterCommand, LosesText, BringsOut, Extract;
    var next := AfterCommand(h, c);
    forall t, u | InConfig(next, t) && InState(next, u) ensures t == u {
      CommandLosesTextIff(h, c, t);
      CommandLosesTextIff(h, c, u);
      SoundKeepsText(h, c, t);
      SoundKeepsText(h, c, u);
    }
  }

  /** From a sound home that holds no two different blocks, no run loses or changes the block. */
  lemma {:induction false} BlockTextIsKept(h: Home, commands: seq<Command>, t: string)
    requires Sound(h) && SameBlock(h)
    ensures Sound(Run(h, commands)) && SameBlock(Run(h, commands))
    ensures TextKept(Run(h, commands), t) <==> TextKept(h, t)
    decreases |commands|
  {
    hide Sound, SameBlock, TextKept, AfterCommand, LosesText, BringsOut;
    if commands != [] {
      SoundKeepsText(h, commands[0], t);
      CommandLosesTextIff(h, commands[0], t);
      SoundStays(h, commands[0]);
      SameBlockStays(h, commands[0]);
      BlockTextIsKept(AfterCommand(h, commands[0]), commands[1..], t);
    }
  }

  // ---------------------------------------------------------------- where the code falls short

  lemma WrittenBlockHoldsItself(body: string)
    requires MarkerFree(body)
    ensures Holds(Block(body), Block(body)) && Managed(Block(body))
  {
    hide Find, BEGIN, END, MarkerFree;
    MarkedSearch(body, "\n");
    assert Block(body) == Marked(body) + "\n";
    ExtractedIsWhole(Block(body));
  }

  /** An installation over a written block while another is saved: the state keeps the older, the newer is gone. */
  lemma NewerBlockIsDropped(env: Env, x: string, y: string)
    requires MarkerFree(x) && MarkerFree(y) && x != y
    ensures var h := Home(Some(Block(x)), Some(State(Saved(Some(Block(y)), map[]))), map[]);
            && InstallPlan(h, env).Ok? && TextKept(h, Block(x))
            && var installed := ExecAll(h, env, InstallPlan(h, env).value);
               TextKept(installed, Block(y)) && !TextKept(installed, Block(x))
  {
    hide Find, BEGIN, END, MarkerFree, ExecAll, Block, BlockEnd, BlockLoads, Unlinks, ManagedLinks;
    var h := Home(Some(Block(x)), Some(State(Saved(Some(Block(y)), map[]))), map[]);
    WrittenBlockHoldsItself(x);
    WrittenBlockHoldsItself(y);
    WrittenBlockLoads(y);
    DifferentBlocks(x, y);
    NothingIsLeft(x);
    assert Loads(h.state.value.saved, env.known);
    var install := Command(true, env, |InstallPlan(h, env).value|);
    InstallIsLong(h, env);
    CommandLosesTextIff(h, install, Block(x));
    CommandLosesTextIff(h, install, Block(y));
  }

  lemma DifferentBlocks(x: string, y: string)
    requires x != y
    ensures Block(x) != Block(y)
  {
    var head, tail := BEGIN + "\n", "\n" + END + "\n";
    hide BEGIN, END;
    assert Block(x) == head + x + tail && Block(y) == head + y + tail;
    assert x == Block(x)[|head|..|Block(x)| - |tail|] && y == Block(y)[|head|..|Block(y)| - |tail|];
  }

  lemma NothingIsLeft(x: string)
    requires MarkerFree(x)
    ensures Remove(Block(x)) == Ok("") && forall t :: !Holds("", t)
  {
    hide Find, BEGIN, END, MarkerFree;
    MarkersAreApart();
    NothingIsIn(BEGIN);
    RemoveCuts("", x, "\n");
    assert "" + (Marked(x) + "\n") == Block(x);
  }
}
