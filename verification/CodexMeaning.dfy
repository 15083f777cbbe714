/**
 * When the Codex commands go through and what they leave, said by the config's text, the saved state and the links
 * alone.
 */
module CodexMeaning {
  import opened PyText
  import opened ManagedBlocks
  import opened ManagedBlockLaws
  import opened CodexInstalls
  import opened CodexInstallLaws

  // ---------------------------------------------------------------- markers in a text

  predicate StandsAt(text: string, marker: string, at: int) {
    0 <= at <= |text| - |marker| && text[at..at + |marker|] == marker
  }

  predicate Stands(text: string, marker: string) {
    exists at :: 0 <= at <= |text| && StandsAt(text, marker, at)
  }

  ghost predicate StandsOnce(text: string, marker: string) {
    exists at :: StandsAt(text, marker, at) && forall other :: StandsAt(text, marker, other) ==> other == at
  }

  lemma StandsIsContains(text: string, marker: string)
    ensures Stands(text, marker) <==> Contains(text, marker)
  {
    hide Find;
    FindIsFirst(text, marker, 0);
    assert forall at: nat :: StandsAt(text, marker, at) <==> Occurs(text, marker, at);
  }

  /** Both markers begin with their only number sign, so no two occurrences of one overlap. */
  lemma OneNumberSign()
    ensures |BEGIN| > 1 && |END| > 1 && BEGIN[0] == '#' && END[0] == '#'
    ensures (forall i :: 0 < i < |BEGIN| ==> BEGIN[i] != '#') && (forall i :: 0 < i < |END| ==> END[i] != '#')
  {
  }

  lemma NoOverlap(text: string, marker: string, a: int, b: int)
    requires |marker| > 1 && marker[0] == '#' && forall i :: 0 < i < |marker| ==> marker[i] != '#'
    requires StandsAt(text, marker, a) && StandsAt(text, marker, b)
    ensures b <= a || a + |marker| <= b
  {
    assert text[b] == text[b..b + |marker|][0] == '#';
    forall c | a < c < a + |marker| ensures text[c] != '#' {
      assert text[c] == text[a..a + |marker|][c - a];
    }
  }

  lemma SameOccurrences(text: string, marker: string)
    ensures forall at :: StandsAt(text, marker, at) ==> at >= 0
    ensures forall at: nat :: StandsAt(text, marker, at) <==> Occurs(text, marker, at)
  {
  }

  lemma OnceIsCountedOnce(text: string, marker: string)
    requires |marker| > 1 && marker[0] == '#' && forall i :: 0 < i < |marker| ==> marker[i] != '#'
    ensures StandsOnce(text, marker) <==> CountsOnce(text, marker)
  {
    SameOccurrences(text, marker);
    hide Find, StandsAt, Occurs;
    FindIsFirst(text, marker, 0);
    if Contains(text, marker) {
      var first := Find(text, marker, 0).value;
      FindIsFirst(text, marker, first + |marker|);
      assert StandsAt(text, marker, first);
      forall at | StandsAt(text, marker, at) ensures at <= first || first + |marker| <= at {
        NoOverlap(text, marker, first, at);
      }
    }
  }

  // ---------------------------------------------------------------- when a command goes through

  /** White space, and then a begin marker. */
  ghost predicate BeginsMarked(block: string) {
    exists at :: 0 <= at <= |block| && AllSpace(block[..at]) && StandsAt(block, BEGIN, at)
  }

  lemma BeginsMarkedIs(block: string)
    ensures BeginsMarked(block) <==> BEGIN <= Lstrip(block)
  {
    var lead := LstripCuts(block);
    hide Lstrip;
    OneNumberSign();
    BeginIsText();
    hide BEGIN;
    if BEGIN <= Lstrip(block) {
      assert block[..|lead|] == lead && block[|lead|..] == Lstrip(block);
      assert block[|lead|..|lead| + |BEGIN|] == Lstrip(block)[..|BEGIN|];
      assert StandsAt(block, BEGIN, |lead|);
    }
    if at :| 0 <= at <= |block| && AllSpace(block[..at]) && StandsAt(block, BEGIN, at) {
      assert block[at] == BEGIN[0];
      FirstText(block, lead, Lstrip(block), at);
      assert Lstrip(block) == block[at..];
    }
  }

  /** Two ways to cut the white space off the front of a text are the same way. */
  lemma FirstText(block: string, lead: string, rest: string, at: nat)
    requires block == lead + rest && AllSpace(lead) && (rest != "" ==> !IsSpace(rest[0]))
    requires at < |block| && AllSpace(block[..at]) && !IsSpace(block[at])
    ensures |lead| == at
  {
    hide IsSpace;
    assert forall i :: 0 <= i < |lead| ==> block[i] == lead[i];
    assert forall i :: 0 <= i < at ==> block[i] == block[..at][i];
    assert rest != "" ==> block[|lead|] == rest[0];
  }

  /** No state file, or one whose block holds each marker once, the begin marker first, and whose links are known. */
  ghost predicate Readable(h: Home, known: set<Target>) {
    match h.state
    case None => true
    case Some(Malformed) => false
    case Some(State(saved)) =>
      && (saved.block.Some? ==>
            && StandsOnce(saved.block.value, BEGIN) && StandsOnce(saved.block.value, END)
            && BeginsMarked(saved.block.value))
      && forall k :: k in saved.links ==> saved.links[k] in known
  }

  /** If both markers stand in the text, an end marker stands behind the first begin marker. */
  ghost predicate Removable(text: string) {
    Stands(text, BEGIN) && Stands(text, END) ==>
      exists begin, end :: && StandsAt(text, BEGIN, begin) && StandsAt(text, END, end) && begin <= end
                           && forall other :: StandsAt(text, BEGIN, other) ==> begin <= other
  }

  function SavedIn(h: Home): Saved {
    match h.state case Some(State(saved)) => saved case _ => Saved(None, map[])
  }

  lemma LoadsIff(h: Home, known: set<Target>)
    ensures Load(h, known).Ok? <==> Readable(h, known)
    ensures Load(h, known).Ok? ==> Load(h, known).value == SavedIn(h)
  {
    if h.state.Some? && h.state.value.State? {
      var saved := h.state.value.saved;
      OneNumberSign();
      if saved.block.Some? {
        OnceIsCountedOnce(saved.block.value, BEGIN);
        OnceIsCountedOnce(saved.block.value, END);
        BeginsMarkedIs(saved.block.value);
      }
      ValuesKnown(saved.links, known);
    }
    hide Find, StandsOnce, BeginsMarked, CountsOnce, BEGIN, END, Lstrip;
  }

  lemma ValuesKnown(links: map<Skill, Target>, known: set<Target>)
    ensures links.Values <= known <==> forall k :: k in links ==> links[k] in known
  {
    if links.Values <= known {
      forall k | k in links ensures links[k] in known {
        assert links[k] in links.Values;
      }
    }
  }

  lemma RemovableIff(text: string)
    ensures Removable(text) <==> (Managed(text) ==> BlockEnd(text).Some?)
  {
    StandsIsContains(text, BEGIN);
    StandsIsContains(text, END);
    hide Find, BEGIN, END;
    if Managed(text) {
      var begin := Find(text, BEGIN, 0).value;
      FindIsFirst(text, BEGIN, 0);
      FindIsFirst(text, END, begin);
      assert StandsAt(text, BEGIN, begin);
      assert forall at: nat :: StandsAt(text, END, at) <==> Occurs(text, END, at);
      assert forall at: nat :: StandsAt(text, BEGIN, at) <==> Occurs(text, BEGIN, at);
      if BlockEnd(text).Some? {
        assert StandsAt(text, END, Find(text, END, begin).value);
      }
    }
  }

  /** An installation is planned exactly if the state is readable and the config's block can be taken out. */
  lemma InstallGoesThroughIff(h: Home, env: Env)
    ensures InstallPlan(h, env).Ok? <==> Readable(h, env.known) && Removable(Text(h.config))
  {
    LoadsIff(h, env.known);
    RemovableIff(Text(h.config));
    hide Find, Readable, Removable, Load, BEGIN, END, Managed, Unlinks;
  }

  /** An uninstallation is planned exactly if the state is readable. */
  lemma UninstallGoesThroughIff(h: Home, env: Env)
    ensures UninstallPlan(h, env).Ok? <==> Readable(h, env.known)
  {
    LoadsIff(h, env.known);
    hide Readable, Load;
  }

  // ---------------------------------------------------------------- what a complete command leaves

  /** A link to a target the registry knows. */
  predicate IsManaged(h: Home, env: Env, k: Skill) {
    k in h.links && h.links[k].LinkTo? && h.links[k].target in env.known
  }

  /** Managed links are gone and saved over earlier ones; the block is saved unless one was, and out of the config. */
  ghost predicate InstallLeaves(h: Home, env: Env, x: Home) {
    && (forall k: Skill :: k in x.links <==> k in h.links && !IsManaged(h, env, k))
    && (forall k: Skill :: k in x.links ==> x.links[k] == h.links[k])
    && x.state.Some? && x.state.value.State?
    && var saved, now := SavedIn(h), x.state.value.saved;
       && (forall k: Skill :: k in now.links <==> k in saved.links || IsManaged(h, env, k))
       && (forall k: Skill :: k in now.links ==>
             now.links[k] == if IsManaged(h, env, k) then h.links[k].target else saved.links[k])
       && if !(Stands(Text(h.config), BEGIN) && Stands(Text(h.config), END)) then
            now.block == saved.block && x.config == h.config
          else
            && (saved.block.Some? ==> now.block == saved.block)
            && (saved.block.None? ==> now.block.Some? && Extract(Text(h.config)) == Ok(now.block))
            && Remove(Text(h.config)) == Ok(Text(x.config)) && x.config != Some("")
  }

  lemma InstallIsComplete(h: Home, env: Env)
    requires InstallPlan(h, env).Ok?
    ensures InstallLeaves(h, env, ExecAll(h, env, InstallPlan(h, env).value))
  {
    StandsIsContains(Text(h.config), BEGIN);
    StandsIsContains(Text(h.config), END);
    LoadsIff(h, env.known);
    CompletedInstall(h, env);
    InstalledLeaves(h, env, Capture(h, SavedIn(h), env.known).value);
    hide Find, BEGIN, END, ExecAll, InstallLeaves, Installed, Unlinks, Remove, Load;
  }

  lemma InstalledLeaves(h: Home, env: Env, saved: Saved)
    requires InstallPlan(h, env).Ok? && Capture(h, SavedIn(h), env.known) == Ok(saved)
    ensures InstallLeaves(h, env, Installed(h, saved, env))
  {
    StandsIsContains(Text(h.config), BEGIN);
    StandsIsContains(Text(h.config), END);
    RemovableIff(Text(h.config));
    hide Find, BEGIN, END, Unlinks, Stands, Load, Removable;
    var links := ManagedLinks(h, env.known);
    assert forall k: Skill :: k in links <==> IsManaged(h, env, k);
    BlockTakenOut(h, env, saved);
    hide Remove, Extract, Managed;
  }

  lemma BlockTakenOut(h: Home, env: Env, saved: Saved)
    requires InstallPlan(h, env).Ok? && Capture(h, SavedIn(h), env.known) == Ok(saved)
    ensures var x := Exec(h, env, RemoveBlock);
            if !Managed(Text(h.config)) then saved.block == SavedIn(h).block && x.config == h.config
            else
              && (SavedIn(h).block.Some? ==> saved.block == SavedIn(h).block)
              && (SavedIn(h).block.None? ==> saved.block.Some? && Extract(Text(h.config)) == Ok(saved.block))
              && Remove(Text(h.config)) == Ok(Text(x.config)) && x.config != Some("")
  {
    hide Find, BEGIN, END, Unlinks, ManagedLinks, Load, Rstrip, LstripNewlines;
  }

  /** After an installation over a written block there is no config exactly if only white space stood around it. */
  lemma OnlyTheBlockLeavesNoConfig(h: Home, env: Env, head: string, body: string, tail: string)
    requires h.config == Some(head + (Marked(body) + tail)) && InstallPlan(h, env).Ok?
    requires WholeLines(head) && !Contains(head, BEGIN) && MarkerFree(body)
    ensures ExecAll(h, env, InstallPlan(h, env).value).config == None <==>
              AllSpace(head) && forall i :: 0 <= i < |tail| ==> tail[i] == '\n'
  {
    hide Find, BEGIN, END, Rstrip, LstripNewlines, Marked, MarkerFree, WholeLines, ExecAll, Unlinks, ManagedLinks,
         Capture, Load;
    CompletedInstall(h, env);
    RemoveCuts(head, body, tail);
    BlankIsStripped(head);
    var i := NewlinesCut(tail);
    assert LstripNewlines(tail) == "" <==> forall k :: 0 <= k < |tail| ==> tail[k] == '\n';
  }

  /** Saved links come back where the path is free and the target exists, and stay saved where they cannot. */
  ghost predicate UninstallLeaves(h: Home, env: Env, x: Home) {
    var saved, text := SavedIn(h), Text(h.config);
    && (forall k: Skill :: k in x.links <==>
          k in h.links || (k in saved.links && saved.links[k] in env.available))
    && (forall k: Skill :: k in x.links ==>
          x.links[k] == if k in h.links then h.links[k] else LinkTo(saved.links[k]))
    && (x.config ==
          if saved.block.Some? && !Stands(text, BEGIN) && !Stands(text, END)
             && !Stands(text, "[mcp_servers.researchRegistry]") then
            Some(if AllSpace(text) then saved.block.value else Rstrip(text) + "\n\n" + saved.block.value)
          else h.config)
    && (x.state == None || (x.state.value.State? && x.state.value.saved != Saved(None, map[])))
    && var left := SavedIn(x);
       && (left.block == if x.config != h.config || (Stands(text, BEGIN) && Stands(text, END)) then None
                         else saved.block)
       && (forall k: Skill :: k in left.links <==>
             k in saved.links && if k in h.links then h.links[k] != LinkTo(saved.links[k])
                                 else saved.links[k] !in env.available)
       && (forall k: Skill :: k in left.links ==> left.links[k] == saved.links[k])
  }

  lemma UninstallIsComplete(h: Home, env: Env)
    requires UninstallPlan(h, env).Ok?
    ensures UninstallLeaves(h, env, ExecAll(h, env, UninstallPlan(h, env).value))
  {
    LoadsIff(h, env.known);
    CompletedUninstall(h, env);
    UninstalledLeaves(h, env);
    hide Find, BEGIN, END, ExecAll, UninstallLeaves, Uninstalled, UninstallSteps, Load;
  }

  lemma UninstalledLinks(h: Home, env: Env, saved: Saved)
    ensures var x, left := Uninstalled(h, saved, env).links, PlanRestoration(h, saved, env).remaining.links;
            && (forall k: Skill :: k in x <==> k in h.links || (k in saved.links && saved.links[k] in env.available))
            && (forall k: Skill :: k in x ==> x[k] == if k in h.links then h.links[k] else LinkTo(saved.links[k]))
            && (forall k: Skill :: k in left <==>
                  k in saved.links && if k in h.links then h.links[k] != LinkTo(saved.links[k])
                                      else saved.links[k] !in env.available)
            && (forall k: Skill :: k in left ==> left[k] == saved.links[k])
  {
    hide Appendable, Managed, Append;
  }

  lemma AppendableIs(text: string)
    ensures Appendable(text) <==>
              !Stands(text, BEGIN) && !Stands(text, END) && !Stands(text, "[mcp_servers.researchRegistry]")
    ensures Managed(text) <==> Stands(text, BEGIN) && Stands(text, END)
  {
    StandsIsContains(text, BEGIN);
    StandsIsContains(text, END);
    StandsIsContains(text, UNMANAGED);
    assert UNMANAGED == "[mcp_servers.researchRegistry]";
    hide BEGIN, END, UNMANAGED, Stands, Contains;
  }

  lemma UninstalledConfig(h: Home, env: Env)
    requires UninstallPlan(h, env).Ok?
    ensures var saved, text, x := SavedIn(h), Text(h.config), Uninstalled(h, SavedIn(h), env);
            && (x.config == if saved.block.Some? && Appendable(text) then
                              Some(if AllSpace(text) then saved.block.value
                                   else Rstrip(text) + "\n\n" + saved.block.value)
                            else h.config)
            && (x.config != h.config <==> saved.block.Some? && Appendable(text))
            && var remaining := PlanRestoration(h, saved, env).remaining;
               && remaining.block == (if x.config != h.config || Managed(text) then None else saved.block)
               && SavedIn(x) == remaining
               && (x.state == None || (x.state.value.State? && x.state.value.saved != Saved(None, map[])))
  {
    BlankIsStripped(Text(h.config));
    AppendedDiffers(h, env);
    hide Appendable, Managed, Rstrip, Load;
  }

  lemma UninstalledLeaves(h: Home, env: Env)
    requires UninstallPlan(h, env).Ok?
    ensures UninstallLeaves(h, env, Uninstalled(h, SavedIn(h), env))
  {
    hide Find, BEGIN, END, UNMANAGED, Stands, Load, Rstrip, Contains, Appendable, Managed, Append, PlanRestoration,
         AllSpace, Uninstalled, UninstallPlan;
    AppendableIs(Text(h.config));
    UninstalledConfig(h, env);
    UninstalledLinks(h, env, SavedIn(h));
  }

  /** Putting the block back changes the config. */
  lemma AppendedDiffers(h: Home, env: Env)
    requires UninstallPlan(h, env).Ok?
    ensures SavedIn(h).block.Some? && Appendable(Text(h.config)) ==>
              Some(Append(Text(h.config), SavedIn(h).block.value)) != h.config
  {
    LoadsIff(h, env.known);
    hide Find, BEGIN, END, UNMANAGED, Append, BlockLoads, Orderly, Readable;
    if SavedIn(h).block.Some? && Appendable(Text(h.config)) {
      AppendableIsMarkerFree(Text(h.config));
      AppendedIsOrderly(Text(h.config), SavedIn(h).block.value);
    }
  }
}
