/** The legacy config block and skill links moved by src/research_registry/codex_install.py. */
module CodexInstalls {
  import opened PyText
  import opened ManagedBlocks

  const LEGACY_SKILLS: nat := 2

  /** A legacy skill, numbered in the order of their names, which is also the order of their paths. */
  type Skill = k: nat | k < LEGACY_SKILLS

  type Target = string

  /** What stands at a legacy skill's path: a link, or something else. */
  datatype Entry = LinkTo(target: Target) | Occupied

  datatype Saved = Saved(block: Option<string>, links: map<Skill, Target>)

  datatype StateFile = State(saved: Saved) | Malformed

  /** The parts of the Codex home that install and uninstall move text and links between. */
  datatype Home = Home(config: Option<string>, state: Option<StateFile>, links: map<Skill, Entry>)

  /** The link targets the registry owns, and those that exist on disk. */
  datatype Env = Env(known: set<Target>, available: set<Target>)

  datatype Step =
    | WriteState(saved: Saved)
    | RemoveBlock
    | Unlink(skill: Skill)
    | RestoreBlock(saved: Saved)
    | RestoreLink(skill: Skill, target: Target)
    | RemoveState

  const EMPTY := Saved(None, map[])

  // ---------------------------------------------------------------- reading the home

  function Text(config: Option<string>): string {
    if config == None then "" else config.value
  }

  predicate CountsOnce(s: string, marker: string) {
    Contains(s, marker) && Find(s, marker, Find(s, marker, 0).value + |marker|) == None
  }

  predicate BlockLoads(block: string) {
    CountsOnce(block, BEGIN) && CountsOnce(block, END) && BEGIN <= Lstrip(block)
  }

  predicate Loads(saved: Saved, known: set<Target>) {
    (saved.block.Some? ==> BlockLoads(saved.block.value)) && saved.links.Values <= known
  }

  function Load(h: Home, known: set<Target>): Result<Saved> {
    if h.state == None then Ok(EMPTY)
    else if h.state.value.Malformed? then Err("unreadable state")
    else if !Loads(h.state.value.saved, known) then Err("unsafe state")
    else Ok(h.state.value.saved)
  }

  function ManagedLinks(h: Home, known: set<Target>): map<Skill, Target> {
    map k: Skill | k in h.links && h.links[k].LinkTo? && h.links[k].target in known :: h.links[k].target
  }

  // ---------------------------------------------------------------- install

  /** What installation will save: an earlier saved block stays, the links found now win over saved ones. */
  function Capture(h: Home, saved: Saved, known: set<Target>): Result<Saved> {
    var links := saved.links + ManagedLinks(h, known);
    if saved.block == None && Managed(Text(h.config)) then
      var block := Extract(Text(h.config));
      if block.Err? then Err(block.message) else Ok(Saved(block.value, links))
    else Ok(Saved(saved.block, links))
  }

  function Unlinks(links: map<Skill, Target>, from: nat): seq<Step>
    decreases LEGACY_SKILLS - from
  {
    if from >= LEGACY_SKILLS then []
    else (if from in links then [Unlink(from)] else []) + Unlinks(links, from + 1)
  }

  /** The steps of an installation, or the error that stops it before the first one. */
  function InstallPlan(h: Home, env: Env): Result<seq<Step>> {
    var saved := Load(h, env.known);
    if saved.Err? then Err(saved.message)
    else
      var captured := Capture(h, saved.value, env.known);
      if captured.Err? then Err(captured.message)
      else if Remove(Text(h.config)).Err? then Err("substring not found")
      else Ok([WriteState(captured.value), RemoveBlock] + Unlinks(ManagedLinks(h, env.known), 0))
  }

  // ---------------------------------------------------------------- uninstall

  /** What an uninstall announces: whether the config changes, which links come back, and what stays saved. */
  datatype Restoration = Restoration(config: bool, links: set<Skill>, remaining: Saved)

  predicate Appendable(content: string) {
    !Contains(content, BEGIN) && !Contains(content, END) && !Contains(content, UNMANAGED)
  }

  function PlanRestoration(h: Home, saved: Saved, env: Env): Restoration {
    var content := Text(h.config);
    var config := saved.block.Some? && Appendable(content);
    var links := set k | k in saved.links && k !in h.links && saved.links[k] in env.available;
    Restoration(
      config,
      links,
      Saved(if config || Managed(content) then None else saved.block,
            map k | k in saved.links && k !in links && !(k in h.links && h.links[k] == LinkTo(saved.links[k]))
                :: saved.links[k]))
  }

  function Relinks(links: map<Skill, Target>, from: nat): seq<Step>
    decreases LEGACY_SKILLS - from
  {
    if from >= LEGACY_SKILLS then []
    else (if from in links then [RestoreLink(from, links[from])] else []) + Relinks(links, from + 1)
  }

  function UninstallSteps(saved: Saved, remaining: Saved): seq<Step> {
    [RestoreBlock(saved)] + Relinks(saved.links, 0)
    + [if remaining == EMPTY then RemoveState else WriteState(remaining)]
  }

  function UninstallPlan(h: Home, env: Env): Result<seq<Step>> {
    var saved := Load(h, env.known);
    if saved.Err? then Err(saved.message)
    else Ok(UninstallSteps(saved.value, PlanRestoration(h, saved.value, env).remaining))
  }

  // ---------------------------------------------------------------- what one step does

  function Exec(h: Home, env: Env, step: Step): Home {
    match step
    case WriteState(saved) => h.(state := Some(State(saved)))
    case RemoveBlock =>
      var left := Remove(Text(h.config));
      if !Managed(Text(h.config)) || left.Err? then h
      else h.(config := if left.value == "" then None else Some(left.value))
    case Unlink(k) => h.(links := h.links - {k})
    case RestoreBlock(saved) =>
      var content := Text(h.config);
      if saved.block == None || !Appendable(content) then h
      else h.(config := Some(Append(content, saved.block.value)))
    case RestoreLink(k, target) =>
      if k in h.links || target !in env.available then h else h.(links := h.links[k := LinkTo(target)])
    case RemoveState => h.(state := None)
  }

  function ExecAll(h: Home, env: Env, steps: seq<Step>): Home
    decreases |steps|
  {
    if steps == [] then h else ExecAll(Exec(h, env, steps[0]), env, steps[1..])
  }

  lemma {:induction false} ExecAppend(h: Home, env: Env, a: seq<Step>, b: seq<Step>)
    ensures ExecAll(h, env, a + b) == ExecAll(ExecAll(h, env, a), env, b)
    decreases |a|
  {
    hide Exec;
    if a == [] {
      assert a + b == b;
    } else {
      assert (a + b)[1..] == a[1..] + b;
      ExecAppend(Exec(h, env, a[0]), env, a[1..], b);
    }
  }

  // ---------------------------------------------------------------- the code

  class CodexHome {
    var config: Option<string>
    var state: Option<StateFile>
    var links: map<Skill, Entry>

    constructor (h: Home)
      ensures Contents() == h
    {
      config, state, links := h.config, h.state, h.links;
    }

    function Contents(): Home
      reads this
    {
      Home(config, state, links)
    }

    method ManagedLegacyLinks(known: set<Target>) returns (found: map<Skill, Target>)
      ensures found == ManagedLinks(Contents(), known)
    {
      found := map[];
      for k: nat := 0 to LEGACY_SKILLS
        invariant found == map j: Skill | j < k && j in ManagedLinks(Contents(), known)
            :: ManagedLinks(Contents(), known)[j]
      {
        if k in links && links[k].LinkTo? && links[k].target in known {
          found := found[k := links[k].target];
        }
      }
    }

    method CaptureLegacyState(saved: Saved, known: set<Target>) returns (captured: Result<Saved>)
      ensures captured == Capture(Contents(), saved, known)
    {
      hide Find, Managed;
      var updated := saved;
      if updated.block == None && Managed(Text(config)) {
        var block := Extract(Text(config));
        if block.Err? {
          return Err(block.message);
        }
        updated := updated.(block := block.value);
      }
      var found := ManagedLegacyLinks(known);
      captured := Ok(updated.(links := updated.links + found));
    }

    method ApplyLegacyRemoval(env: Env)
      modifies this
      ensures Contents() == ExecAll(old(Contents()), env,
          [RemoveBlock] + Unlinks(ManagedLinks(old(Contents()), env.known), 0))
    {
      hide Find, Managed, Remove;
      var left := Remove(Text(config));
      if Managed(Text(config)) && left.Ok? {
        config := if left.value == "" then None else Some(left.value);
      }
      ghost var removed := Contents();
      assert removed == Exec(old(Contents()), env, RemoveBlock);
      var found := ManagedLegacyLinks(env.known);
      for k: nat := 0 to LEGACY_SKILLS
        invariant ExecAll(removed, env, Unlinks(found, 0)) == ExecAll(Contents(), env, Unlinks(found, k))
      {
        if k in found {
          ghost var before := Contents();
          links := links - {k};
          assert ([Unlink(k)] + Unlinks(found, k + 1))[1..] == Unlinks(found, k + 1);
          assert Contents() == Exec(before, env, Unlink(k));
        } else {
          assert [] + Unlinks(found, k + 1) == Unlinks(found, k + 1);
        }
      }
      assert ([RemoveBlock] + Unlinks(found, 0))[1..] == Unlinks(found, 0);
    }

    /** Ok or the error that left everything as it was. */
    method InstallCodex(env: Env, dryRun: bool) returns (result: Result<Saved>)
      modifies this
      ensures result.Ok? <==> InstallPlan(old(Contents()), env).Ok?
      ensures Contents() ==
          if result.Ok? && !dryRun then ExecAll(old(Contents()), env, InstallPlan(old(Contents()), env).value)
                            else old(Contents())
    {
      hide Find, Managed, Remove, Exec, Capture, ManagedLinks, Unlinks;
      var saved := Load(Contents(), env.known);
      if saved.Err? {
        return Err(saved.message);
      }
      result := CaptureLegacyState(saved.value, env.known);
      if result.Err? {
        return;
      }
      if Remove(Text(config)).Err? {
        return Err("substring not found");
      }
      if dryRun {
        return;
      }
      ghost var before := Contents();
      state := Some(State(result.value));
      WriteStateOnly(before, env, result.value);
      ghost var written := Contents();
      ApplyLegacyRemoval(env);
      ghost var rest := [RemoveBlock] + Unlinks(ManagedLinks(written, env.known), 0);
      assert [WriteState(result.value)] + rest == InstallPlan(before, env).value;
      ExecAppend(before, env, [WriteState(result.value)], rest);
    }

    static lemma WriteStateOnly(h: Home, env: Env, saved: Saved)
      ensures ExecAll(h, env, [WriteState(saved)]) == h.(state := Some(State(saved)))
      ensures ManagedLinks(h.(state := Some(State(saved))), env.known) == ManagedLinks(h, env.known)
    {
    }

    method RestorationPlan(saved: Saved, env: Env) returns (plan: Restoration)
      ensures plan == PlanRestoration(Contents(), saved, env)
    {
      hide Find, Appendable, Managed;
      var remaining := saved;
      var changesConfig := false;
      if saved.block.Some? {
        changesConfig := Appendable(Text(config));
        if changesConfig || Managed(Text(config)) {
          remaining := remaining.(block := None);
        }
      }
      var changed: set<Skill>, left: map<Skill, Target> := {}, map[];
      ghost var full := PlanRestoration(Contents(), saved, env);
      for k: nat := 0 to LEGACY_SKILLS
        invariant changed == set j: Skill | j < k && j in full.links
        invariant left == map j: Skill | j < k && j in full.remaining.links :: full.remaining.links[j]
      {
        if k in saved.links {
          if k in links && links[k] == LinkTo(saved.links[k]) {
          } else if k in links {
            left := left[k := saved.links[k]];
          } else if saved.links[k] !in env.available {
            left := left[k := saved.links[k]];
          } else {
            changed := changed + {k};
          }
        }
      }
      assert changed == full.links && left == full.remaining.links;
      plan := Restoration(changesConfig, changed, remaining.(links := left));
    }

    method ApplyRestoration(saved: Saved, env: Env)
      modifies this
      ensures Contents() == ExecAll(old(Contents()), env, [RestoreBlock(saved)] + Relinks(saved.links, 0))
    {
      hide Find, Append;
      if saved.block.Some? && Appendable(Text(config)) {
        config := Some(Append(Text(config), saved.block.value));
      }
      ghost var restored := Contents();
      assert restored == Exec(old(Contents()), env, RestoreBlock(saved));
      for k: nat := 0 to LEGACY_SKILLS
        invariant ExecAll(restored, env, Relinks(saved.links, 0)) == ExecAll(Contents(), env, Relinks(saved.links, k))
      {
        if k in saved.links {
          ghost var before := Contents();
          if k !in links && saved.links[k] in env.available {
            links := links[k := LinkTo(saved.links[k])];
          }
          assert ([RestoreLink(k, saved.links[k])] + Relinks(saved.links, k + 1))[1..] == Relinks(saved.links, k + 1);
          assert Contents() == Exec(before, env, RestoreLink(k, saved.links[k]));
        } else {
          assert [] + Relinks(saved.links, k + 1) == Relinks(saved.links, k + 1);
        }
      }
      assert ([RestoreBlock(saved)] + Relinks(saved.links, 0))[1..] == Relinks(saved.links, 0);
    }

    method UninstallCodex(env: Env, dryRun: bool) returns (result: Result<Restoration>)
      modifies this
      ensures result.Ok? <==> UninstallPlan(old(Contents()), env).Ok?
      ensures result.Ok? ==> result.value == PlanRestoration(
          old(Contents()), Load(old(Contents()), env.known).value, env)
      ensures Contents() ==
          if result.Ok? && !dryRun then ExecAll(old(Contents()), env, UninstallPlan(old(Contents()), env).value)
                            else old(Contents())
    {
      hide Find, Exec, PlanRestoration, Relinks;
      var saved := Load(Contents(), env.known);
      if saved.Err? {
        return Err(saved.message);
      }
      var plan := RestorationPlan(saved.value, env);
      result := Ok(plan);
      if dryRun {
        return;
      }
      ghost var before := Contents();
      ApplyRestoration(saved.value, env);
      ghost var applied := Contents();
      if plan.remaining == EMPTY {
        state := None;
      } else {
        state := Some(State(plan.remaining));
      }
      ghost var last := if plan.remaining == EMPTY then RemoveState else WriteState(plan.remaining);
      LastStep(applied, env, plan.remaining);
      ExecAppend(before, env, [RestoreBlock(saved.value)] + Relinks(saved.value.links, 0), [last]);
    }

    static lemma LastStep(h: Home, env: Env, remaining: Saved)
      ensures ExecAll(h, env, [if remaining == EMPTY then RemoveState else WriteState(remaining)])
           == h.(state := if remaining == EMPTY then None else Some(State(remaining)))
    {
    }
  }
}
