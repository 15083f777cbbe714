/** What complete Codex installs and uninstalls do, and when one undoes the other. */
module CodexInstallLaws {
  import opened PyText
  import opened ManagedBlocks
  import opened ManagedBlockLaws
  import opened CodexInstalls

  // ---------------------------------------------------------------- blocks that can be saved and put back

  /** A begin marker and, after it, an end marker. */
  predicate HasBlock(c: string) {
    Managed(c) && BlockEnd(c).Some?
  }

  /** A config that is not managed, or whose one block stands alone: no marker before or after it. */
  predicate Orderly(c: string) {
    Managed(c) ==> InOrder(c) && MarkerFree(After(c))
  }

  lemma OrderlyHasBlock(c: string)
    requires Managed(c) && InOrder(c)
    ensures BlockEnd(c) == Some(Find(c, END, 0).value + |END|)
  {
    hide Find, BEGIN, END;
    FindBetweenFirst(c, END, Find(c, BEGIN, 0).value);
  }

  lemma FindBetweenFirst(s: string, needle: string, from: nat)
    requires Contains(s, needle) && from <= Find(s, needle, 0).value
    ensures Find(s, needle, from) == Find(s, needle, 0)
  {
    hide Find, Occurs;
    FindIsFirst(s, needle, 0);
    FindIsFirst(s, needle, from);
  }

  lemma {:induction false} RemovedIsMarkerFree(c: string)
    requires Managed(c) && Orderly(c)
    ensures Remove(c).Ok? && MarkerFree(Remove(c).value)
  {
    hide Find, BEGIN, END, Rstrip, LstripNewlines, MarkerFree;
    OrderlyHasBlock(c);
    HeadIsMarkerFree(c);
    var head, tail := c[..Find(c, BEGIN, 0).value], After(c);
    RstripIsMarkerFree(head);
    StrippedStarts(tail);
    var prefix, suffix := Rstrip(head), LstripNewlines(tail);
    assert suffix == tail[|tail| - |suffix|..|tail|];
    PartIsMarkerFree(tail, |tail| - |suffix|, |tail|);
    GluedIsMarkerFree(prefix, suffix);
    HashFreeIsMarkerFree("");
  }

  lemma GluedIsMarkerFree(a: string, b: string)
    requires MarkerFree(a) && MarkerFree(b)
    ensures MarkerFree(Glue(a, b) + "\n")
  {
    hide MarkerFree;
    HashFreeIsMarkerFree("");
    MarkerFreeLines("", b);
    MarkerFreeLines(a, "\n" + b);
    assert "" + "\n" + b == "\n" + b;
    assert a + "\n" + ("\n" + b) == a + "\n\n" + b;
    MarkerFreeLines(Glue(a, b), "");
    assert Glue(a, b) + "\n" + "" == Glue(a, b) + "\n";
  }

  lemma SpaceHoldsNoMarker(block: string, at: nat) returns (begin: nat)
    requires BEGIN <= Lstrip(block)
    ensures Occurs(block, BEGIN, begin)
    ensures Occurs(block, END, at) ==> begin <= at
  {
    hide Lstrip;
    var lead := LstripCuts(block);
    begin := |lead|;
    assert block[|lead|..|lead| + |BEGIN|] == Lstrip(block)[..|BEGIN|];
    assert END[0] == '#' && !IsSpace('#');
    if at + |END| <= |block| && at < |lead| {
      assert block[at] == lead[at];
      assert block[at..at + |END|][0] == block[at];
    }
  }

  /** A saved block that loads: one begin marker, then one end marker, then none. */
  lemma LoadedBlockIsOrderly(block: string)
    requires BlockLoads(block)
    ensures Managed(block) && InOrder(block) && MarkerFree(After(block))
  {
    hide Find, BEGIN, END, Lstrip;
    var begin, end := Find(block, BEGIN, 0).value, Find(block, END, 0).value;
    var first := SpaceHoldsNoMarker(block, end);
    FindIsFirst(block, BEGIN, 0);
    FindIsFirst(block, BEGIN, begin + |BEGIN|);
    FindIsFirst(block, END, end + |END|);
    MarkersDoNotOverlap(block, begin, end);
    var tail := block[end + |END|..];
    assert block == block[..end + |END|] + tail;
    if Contains(tail, BEGIN) {
      OccursShifts(block[..end + |END|], tail, BEGIN, Find(tail, BEGIN, 0).value);
    }
    if Contains(tail, END) {
      OccursShifts(block[..end + |END|], tail, END, Find(tail, END, 0).value);
    }
  }

  /** What installation saves can be loaded again exactly when the block holds no second begin marker. */
  lemma ExtractedLoads(block: string)
    requires IsExtracted(block)
    ensures BlockLoads(block) <==> Find(block, BEGIN, |BEGIN|) == None
  {
    hide Find, BEGIN, END;
    MarkersAreApart();
    BeginIsText();
    assert Occurs(block, BEGIN, 0);
    assert block[..|BEGIN|] == BEGIN && block[0] == BEGIN[0];
    assert Find(block, END, |block| - 1) == None;
  }

  lemma BeginIsText()
    ensures BEGIN != "" && !IsSpace(BEGIN[0])
  {
  }

  lemma {:induction false} AppendedIsOrderly(content: string, block: string)
    requires MarkerFree(content) && BlockLoads(block)
    ensures Managed(Append(content, block)) && Orderly(Append(content, block))
  {
    hide Find, BEGIN, END, Rstrip, MarkerFree;
    MarkersAreApart();
    LoadedBlockIsOrderly(block);
    RstripIsMarkerFree(content);
    var trail := RstripCuts(content);
    BlankLineAfter(Rstrip(content));
    var head, restored := Before(content), Append(content, block);
    assert restored == head + block;
    NoMarker(head);
    FindSkipsLines(head, block, BEGIN);
    FindSkipsLines(head, block, END);
    FindShifts(head, block, BEGIN);
    FindShifts(head, block, END);
    assert After(restored) == After(block);
  }

  lemma NoMarker(s: string)
    requires MarkerFree(s)
    ensures !Contains(s, BEGIN) && !Contains(s, END)
  {
  }

  // ---------------------------------------------------------------- uninstall

  /** The links that restoration creates: the free paths whose target exists. */
  function Creatable(h: Home, env: Env, links: map<Skill, Target>, from: nat): map<Skill, Entry> {
    map k: Skill | from <= k && k in links && k !in h.links && links[k] in env.available :: LinkTo(links[k])
  }

  lemma CreatableStep(h: Home, env: Env, links: map<Skill, Target>, from: Skill)
    requires from in links
    ensures var next := Exec(h, env, RestoreLink(from, links[from]));
            && next == h.(links := next.links)
            && next.links + Creatable(next, env, links, from + 1) == h.links + Creatable(h, env, links, from)
  {
  }

  lemma {:induction false} RelinksDo(h: Home, env: Env, links: map<Skill, Target>, from: nat)
    ensures ExecAll(h, env, Relinks(links, from)) == h.(links := h.links + Creatable(h, env, links, from))
    decreases LEGACY_SKILLS - from
  {
    hide Exec;
    if from >= LEGACY_SKILLS {
      assert Creatable(h, env, links, from) == map[];
    } else if from !in links {
      RelinksDo(h, env, links, from + 1);
      assert Creatable(h, env, links, from) == Creatable(h, env, links, from + 1);
      assert [] + Relinks(links, from + 1) == Relinks(links, from + 1);
    } else {
      CreatableStep(h, env, links, from);
      var step := RestoreLink(from, links[from]);
      RelinksDo(Exec(h, env, step), env, links, from + 1);
      assert ([step] + Relinks(links, from + 1))[1..] == Relinks(links, from + 1);
    }
  }

  lemma PlannedLinksAreCreatable(h: Home, restored: Home, saved: Saved, env: Env)
    requires restored.links == h.links
    ensures var plan := PlanRestoration(h, saved, env);
            && plan.links !! h.links.Keys
            && (map k | k in plan.links :: LinkTo(saved.links[k])) == Creatable(restored, env, saved.links, 0)
  {
    hide Appendable, Managed;
  }

  lemma PlannedBlockIsRestored(h: Home, saved: Saved, env: Env)
    requires Loads(saved, env.known)
    ensures var plan, restored := PlanRestoration(h, saved, env), Exec(h, env, RestoreBlock(saved));
            && restored == h.(config := restored.config)
            && (plan.config <==> restored.config != h.config)
            && (plan.config ==> restored.config == Some(Append(Text(h.config), saved.block.value)))
  {
    hide Find, Append, BEGIN, END, UNMANAGED, Orderly;
    var plan := PlanRestoration(h, saved, env);
    if plan.config {
      AppendedIsOrderly(Text(h.config), saved.block.value);
    }
  }

  /** The plan announces a restoration exactly where the apply steps perform it, and they perform nothing else. */
  lemma PlanIsWhatApplyDoes(h: Home, saved: Saved, env: Env)
    requires Loads(saved, env.known)
    ensures var plan := PlanRestoration(h, saved, env);
            var done := ExecAll(h, env, [RestoreBlock(saved)] + Relinks(saved.links, 0));
            && (plan.config <==> done.config != h.config)
            && (plan.config ==> done.config == Some(Append(Text(h.config), saved.block.value)))
            && done.links == h.links + (map k | k in plan.links :: LinkTo(saved.links[k]))
            && plan.links !! h.links.Keys
            && done.state == h.state
  {
    hide Relinks, PlanRestoration, Exec, Loads;
    var restored := Exec(h, env, RestoreBlock(saved));
    assert ([RestoreBlock(saved)] + Relinks(saved.links, 0))[1..] == Relinks(saved.links, 0);
    PlannedBlockIsRestored(h, saved, env);
    PlannedLinksAreCreatable(h, restored, saved, env);
    RelinksDo(restored, env, saved.links, 0);
  }

  /** What a complete uninstallation leaves. */
  function Uninstalled(h: Home, saved: Saved, env: Env): Home {
    var plan := PlanRestoration(h, saved, env);
    Home(
      if plan.config then Some(Append(Text(h.config), saved.block.value)) else h.config,
      if plan.remaining == EMPTY then None else Some(State(plan.remaining)),
      h.links + (map k | k in plan.links :: LinkTo(saved.links[k])))
  }

  lemma CompletedUninstall(h: Home, env: Env)
    requires UninstallPlan(h, env).Ok?
    ensures ExecAll(h, env, UninstallPlan(h, env).value) == Uninstalled(h, Load(h, env.known).value, env)
  {
    hide Find, Append, Relinks, Exec, PlanRestoration, Loads;
    var saved := Load(h, env.known).value;
    var plan := PlanRestoration(h, saved, env);
    var apply := [RestoreBlock(saved)] + Relinks(saved.links, 0);
    EmptyLoads(env.known);
    PlanIsWhatApplyDoes(h, saved, env);
    ExecAppend(h, env, apply, [if plan.remaining == EMPTY then RemoveState else WriteState(plan.remaining)]);
    CodexHome.LastStep(ExecAll(h, env, apply), env, plan.remaining);
  }

  lemma EmptyLoads(known: set<Target>)
    ensures Loads(EMPTY, known)
  {
  }

  lemma OrderlyIsComplete(c: string)
    requires Managed(c) && Orderly(c)
    ensures HasBlock(c)
  {
    hide Find, BEGIN, END;
    OrderlyHasBlock(c);
  }

  // ---------------------------------------------------------------- install, then uninstall

  lemma {:induction false} UnlinksDo(h: Home, env: Env, links: map<Skill, Target>, from: nat)
    ensures ExecAll(h, env, Unlinks(links, from)) == h.(links := h.links - set k: Skill | k in links && from <= k)
    decreases LEGACY_SKILLS - from
  {
    var gone := set k: Skill | k in links && from <= k;
    if from >= LEGACY_SKILLS {
      assert gone == {};
    } else {
      var later := set k: Skill | k in links && from + 1 <= k;
      if from in links {
        UnlinksDo(Exec(h, env, Unlink(from)), env, links, from + 1);
        assert gone == {from} + later;
        assert h.links - {from} - later == h.links - gone;
        assert ([Unlink(from)] + Unlinks(links, from + 1))[1..] == Unlinks(links, from + 1);
      } else {
        UnlinksDo(h, env, links, from + 1);
        assert gone == later;
        assert [] + Unlinks(links, from + 1) == Unlinks(links, from + 1);
      }
    }
  }

  /** What a complete installation leaves. */
  function Installed(h: Home, saved: Saved, env: Env): Home {
    Home(Exec(h, env, RemoveBlock).config, Some(State(saved)), h.links - ManagedLinks(h, env.known).Keys)
  }

  lemma CompletedInstall(h: Home, env: Env)
    requires InstallPlan(h, env).Ok?
    ensures ExecAll(h, env, InstallPlan(h, env).value)
         == Installed(h, Capture(h, Load(h, env.known).value, env.known).value, env)
  {
    hide Find, Unlinks, Remove, Managed, Capture, Load, Exec;
    var saved := Capture(h, Load(h, env.known).value, env.known).value;
    var links := ManagedLinks(h, env.known);
    FirstSteps(h, env, saved);
    UnlinksDo(ExecAll(h, env, [WriteState(saved), RemoveBlock]), env, links, 0);
    assert (set k: Skill | k in links && 0 <= k) == links.Keys;
    ExecAppend(h, env, [WriteState(saved), RemoveBlock], Unlinks(links, 0));
  }

  lemma {:induction false} FirstSteps(h: Home, env: Env, saved: Saved)
    ensures ExecAll(h, env, [WriteState(saved), RemoveBlock])
         == Home(Exec(h, env, RemoveBlock).config, Some(State(saved)), h.links)
  {
    hide Find, Remove, Managed;
    var written := Exec(h, env, WriteState(saved));
    assert [WriteState(saved), RemoveBlock][1..] == [RemoveBlock];
    assert ExecAll(written, env, [RemoveBlock]) == Exec(written, env, RemoveBlock);
  }

  /** The first installation over a complete block. */
  lemma {:induction false} FirstInstall(h: Home, env: Env)
    requires h.state == None && HasBlock(Text(h.config))
    ensures InstallPlan(h, env).Ok? && Extract(Text(h.config)).Ok? && Extract(Text(h.config)).value.Some?
    ensures ExecAll(h, env, InstallPlan(h, env).value)
         == Installed(h, Saved(Extract(Text(h.config)).value, ManagedLinks(h, env.known)), env)
  {
    hide Find, ExecAll, Installed, ManagedLinks, Unlinks;
    assert map[] + ManagedLinks(h, env.known) == ManagedLinks(h, env.known);
    CompletedInstall(h, env);
  }

  /**
   * Installing and then uninstalling gives back the home, text for text, exactly when the config ended in the block.
   */
  lemma {:induction false} UninstallUndoesInstall(h: Home, env: Env)
    requires h.state == None && h.config.Some? && HasBlock(h.config.value) && Orderly(h.config.value)
    requires BlockLoads(Extract(h.config.value).value.value)
    requires !Contains(Remove(h.config.value).value, UNMANAGED)
    requires ManagedLinks(h, env.known).Values <= env.available
    ensures var installed := ExecAll(h, env, InstallPlan(h, env).value);
            && UninstallPlan(installed, env).Ok?
            && var back := ExecAll(installed, env, UninstallPlan(installed, env).value);
            && back.state == None && back.links == h.links && Extract(Text(back.config)) == Extract(h.config.value)
            && (back == h <==> EndsInBlock(h.config.value))
  {
    hide Find, ExecAll, BEGIN, END, UNMANAGED, BlockEnd, BlockLoads, Orderly, Extract, Append, EndsInBlock,
        ManagedLinks;
    var c := h.config.value;
    var links := ManagedLinks(h, env.known);
    FirstInstall(h, env);
    var saved := Saved(Extract(c).value, links);
    var installed := ExecAll(h, env, InstallPlan(h, env).value);
    RemovedIsMarkerFree(c);
    NoMarker(Remove(c).value);
    LinksAreManaged(h, env);
    CompletedUninstall(installed, env);
    TailHoldsNoBegin(c);
    UninstallRestores(c);
  }

  lemma LinksAreManaged(h: Home, env: Env)
    ensures var links := ManagedLinks(h, env.known);
            && links.Values <= env.known && links.Keys <= h.links.Keys
            && h.links == (h.links - links.Keys) + map k | k in links :: LinkTo(links[k])
  {
  }

  lemma TailHoldsNoBegin(c: string)
    requires Managed(c) && Orderly(c)
    ensures BlockEnd(c).Some? && !Contains(c[BlockEnd(c).value..], BEGIN)
  {
    hide Find, BEGIN, END;
    OrderlyHasBlock(c);
  }

  lemma AppendableIsMarkerFree(c: string)
    requires Appendable(c)
    ensures MarkerFree(c)
  {
  }
}
