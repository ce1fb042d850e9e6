/** Keeping the content directory a mirror of the content repository, and the refresh cycle
    that republishes the store (sync.go). git and the file system are oracles: each outcome the
    library can report is a value the caller supplies. */
module Sync {
  import opened Wrappers
  import opened Text
  import opened Loader
  import opened Store
  import opened ContentTypes

  /** SyncConfig; the interval is a time.Duration in nanoseconds. */
  datatype SyncConfig = SyncConfig(repoURL: string, branch: string, dir: string, interval: int, authToken: string)

  datatype BasicAuth = BasicAuth(username: string, password: string)

  // ---------------------------------------------------------------- credentials and refs

  /** auth: no credentials for an empty token, otherwise HTTP basic auth as user "git". */
  function Auth(token: string): (r: Option<BasicAuth>)
    ensures r.Some? ==> r.value.username == "git"
  {
    if token == "" then None else Some(BasicAuth("git", token))
  }

  /** The token a credential carries, "" for none. */
  function TokenOf(a: Option<BasicAuth>): string {
    if a.None? then "" else a.value.password
  }

  /** The token can be read back from the credential, so distinct tokens give distinct
      credentials, and only the empty token gives none. */
  lemma AuthRoundTrip(token: string)
    ensures TokenOf(Auth(token)) == token
    ensures Auth(token).None? <==> token == ""
  {
  }

  const HeadsPrefix: string := "refs/heads/"

  /** refName: the full reference of a branch. */
  function RefName(branch: string): (r: string)
    ensures HasPrefix(r, HeadsPrefix)
  {
    HeadsPrefix + branch
  }

  /** The branch a full reference names, if it is a branch head. */
  function BranchOf(ref: string): Option<string> {
    if HasPrefix(ref, HeadsPrefix) then Some(ref[|HeadsPrefix|..]) else None
  }

  lemma RefNameRoundTrip(branch: string)
    ensures BranchOf(RefName(branch)) == Some(branch)
  {
    assert RefName(branch)[|HeadsPrefix|..] == branch;
  }

  lemma RefNameInjective(a: string, b: string)
    ensures RefName(a) == RefName(b) <==> a == b
  {
    if RefName(a) == RefName(b) {
      RefNameRoundTrip(a);
      RefNameRoundTrip(b);
    }
  }

  // ---------------------------------------------------------------- clone or pull

  datatype CloneOptions = CloneOptions(
    url: string, referenceName: string, singleBranch: bool, depth: int, auth: Option<BasicAuth>)

  datatype PullOptions = PullOptions(referenceName: string, singleBranch: bool, auth: Option<BasicAuth>)

  /** os.Stat of the .git entry: present, absent, or some other error. */
  datatype StatResult = Found | Missing | StatError(reason: string)

  /** What Worktree().Pull reports. */
  datatype PullResult = PullDone | AlreadyUpToDate | PullError(reason: string)

  /** The git side of the world: each operation's outcome; None means no error. */
  datatype Git = Git(
    stat: string -> StatResult,
    clone: (string, CloneOptions) -> Option<string>,
    open: string -> Option<string>,
    worktree: string -> Option<string>,
    pull: (string, PullOptions) -> PullResult)

  /** The one repository-changing call CloneOrPull makes, if any. */
  datatype GitAction = NoAction | Cloned(dir: string, clone: CloneOptions) | Pulled(dir: string, pull: PullOptions)

  datatype SyncOutcome = SyncOutcome(action: GitAction, err: Option<string>)

  function CloneOpts(cfg: SyncConfig): CloneOptions {
    CloneOptions(cfg.repoURL, RefName(cfg.branch), true, 1, Auth(cfg.authToken))
  }

  function PullOpts(cfg: SyncConfig): PullOptions {
    PullOptions(RefName(cfg.branch), true, Auth(cfg.authToken))
  }

  /** CloneOrPull: a shallow single-branch clone when the directory has no .git, otherwise a
      pull of the branch; being already up to date is not an error. */
  function CloneOrPull(g: Git, cfg: SyncConfig): SyncOutcome {
    match g.stat(Join(cfg.dir, ".git"))
    case StatError(reason) => SyncOutcome(NoAction, Some("checking content dir: " + reason))
    case Missing => SyncOutcome(Cloned(cfg.dir, CloneOpts(cfg)), g.clone(cfg.dir, CloneOpts(cfg)))
    case Found =>
      if g.open(cfg.dir).Some? then SyncOutcome(NoAction, Some("opening repo: " + g.open(cfg.dir).value))
      else if g.worktree(cfg.dir).Some? then SyncOutcome(NoAction, Some("worktree: " + g.worktree(cfg.dir).value))
      else
        match g.pull(cfg.dir, PullOpts(cfg))
        case PullDone => SyncOutcome(Pulled(cfg.dir, PullOpts(cfg)), None)
        case AlreadyUpToDate => SyncOutcome(Pulled(cfg.dir, PullOpts(cfg)), None)
        case PullError(reason) => SyncOutcome(Pulled(cfg.dir, PullOpts(cfg)), Some(reason))
  }

  /** When CloneOrPull succeeds: a clone into a directory without .git that git accepted, or a
      pull in an existing repository that either brought changes or found none. */
  lemma CloneOrPullSucceeds(g: Git, cfg: SyncConfig)
    ensures var st := g.stat(Join(cfg.dir, ".git"));
      CloneOrPull(g, cfg).err.None? <==>
        (st.Missing? && g.clone(cfg.dir, CloneOpts(cfg)).None?)
        || (st.Found? && g.open(cfg.dir).None? && g.worktree(cfg.dir).None?
            && !g.pull(cfg.dir, PullOpts(cfg)).PullError?)
  {
  }

  /** Which call is made: a clone exactly when .git is absent, with one branch, depth one, the
      branch's reference and the token's credentials; a pull exactly when the repository and its
      worktree open, with the same reference and credentials; otherwise none. */
  lemma CloneOrPullAction(g: Git, cfg: SyncConfig)
    ensures var st := g.stat(Join(cfg.dir, ".git")); var a := CloneOrPull(g, cfg).action;
      (a.Cloned? <==> st.Missing?)
      && (a.Pulled? <==> st.Found? && g.open(cfg.dir).None? && g.worktree(cfg.dir).None?)
      && (a.Cloned? ==>
            a.dir == cfg.dir && a.clone.url == cfg.repoURL && a.clone.singleBranch
            && a.clone.depth == 1 && BranchOf(a.clone.referenceName) == Some(cfg.branch)
            && TokenOf(a.clone.auth) == cfg.authToken)
      && (a.Pulled? ==>
            a.dir == cfg.dir && a.pull.singleBranch
            && BranchOf(a.pull.referenceName) == Some(cfg.branch) && TokenOf(a.pull.auth) == cfg.authToken)
  {
    RefNameRoundTrip(cfg.branch);
  }

  /** The errors CloneOrPull reports: a stat failure other than absence, the clone's own error,
      open and worktree failures with context, and any pull error other than up-to-date as it is. */
  lemma CloneOrPullErrors(g: Git, cfg: SyncConfig)
    ensures var st := g.stat(Join(cfg.dir, ".git")); var r := CloneOrPull(g, cfg);
      (st.StatError? ==> r == SyncOutcome(NoAction, Some("checking content dir: " + st.reason)))
      && (st.Missing? ==> r.err == g.clone(cfg.dir, CloneOpts(cfg)))
      && (st.Found? && g.open(cfg.dir).Some? ==> r.err == Some("opening repo: " + g.open(cfg.dir).value))
      && (st.Found? && g.open(cfg.dir).None? && g.worktree(cfg.dir).Some? ==>
            r.err == Some("worktree: " + g.worktree(cfg.dir).value))
      && ((st.Found? && g.open(cfg.dir).None? && g.worktree(cfg.dir).None?
           && g.pull(cfg.dir, PullOpts(cfg)).PullError?) ==>
            r.err == Some(g.pull(cfg.dir, PullOpts(cfg)).reason))
  {
  }

  // ---------------------------------------------------------------- the refresh cycle

  /** What one tick sees: git at sync time, and the content directory after the sync. */
  datatype Tick = Tick(git: Git, fs: FileSystem)

  predicate TickSucceeds(t: Tick, eng: Engines, cfg: SyncConfig) {
    CloneOrPull(t.git, cfg).err.None? && LoadError(t.fs, eng, cfg.dir).None?
  }

  /** One ticker case of StartBackgroundSync: sync, reload, and publish only if both succeed. */
  method SyncTick(t: Tick, eng: Engines, cfg: SyncConfig, store: AtomicStore) returns (published: bool)
    modifies store
    ensures published == TickSucceeds(t, eng, cfg)
    ensures published ==> store.ptr.Some? && IsLoadOf(store.ptr.value, t.fs, eng, cfg.dir)
    ensures !published ==> store.ptr == old(store.ptr)
  {
    var sync := CloneOrPull(t.git, cfg);
    if sync.err.Some? {
      return false;
    }
    var cs := LoadFromDir(t.fs, eng, cfg.dir);
    if cs.Failure? {
      return false;
    }
    store.Store(Some(cs.value));
    return true;
  }

  /** What the select statement receives: the context's cancellation or a tick. */
  datatype Event = Cancelled | Ticked(tick: Tick)

  /** Position of the first cancellation, or the length when there is none. */
  function FirstCancel(es: seq<Event>): (k: nat)
    ensures k <= |es| && (k < |es| ==> es[k].Cancelled?)
    ensures forall j :: 0 <= j < k ==> es[j].Ticked?
  {
    if es == [] then 0
    else if es[0].Cancelled? then 0
    else 1 + FirstCancel(es[1..])
  }

  /** The last tick that succeeds, if any. */
  function LastGood(es: seq<Event>, eng: Engines, cfg: SyncConfig): (k: Option<nat>)
    ensures k.Some? ==> k.value < |es| && es[k.value].Ticked? && TickSucceeds(es[k.value].tick, eng, cfg)
    ensures k.Some? ==> forall j :: k.value < j < |es| ==> !(es[j].Ticked? && TickSucceeds(es[j].tick, eng, cfg))
    ensures k.None? ==> forall j :: 0 <= j < |es| ==> !(es[j].Ticked? && TickSucceeds(es[j].tick, eng, cfg))
  {
    if es == [] then None
    else
      var last := es[|es| - 1];
      if last.Ticked? && TickSucceeds(last.tick, eng, cfg) then Some(|es| - 1)
      else LastGood(es[..|es| - 1], eng, cfg)
  }

  /** The store after the ticks es: the snapshot of the last tick that succeeded, or what it
      held before when none did. */
  ghost predicate StoreAfter(ptr: Option<ContentStore>, before: Option<ContentStore>, es: seq<Event>,
    eng: Engines, cfg: SyncConfig)
  {
    var k := LastGood(es, eng, cfg);
    (k.None? ==> ptr == before)
    && (k.Some? ==> ptr.Some? && IsLoadOf(ptr.value, es[k.value].tick.fs, eng, cfg.dir))
  }

  /** One more tick either becomes the last good one or leaves the last good one as it was. */
  lemma LastGoodStep(es: seq<Event>, i: nat, eng: Engines, cfg: SyncConfig)
    requires i < |es| && es[i].Ticked?
    ensures LastGood(es[..i + 1], eng, cfg)
      == if TickSucceeds(es[i].tick, eng, cfg) then Some(i) else LastGood(es[..i], eng, cfg)
  {
    assert es[..i + 1][..i] == es[..i];
  }

  /** The loop body of StartBackgroundSync for the tick es[i]. */
  method TickAt(es: seq<Event>, i: nat, eng: Engines, cfg: SyncConfig, store: AtomicStore,
    ghost before: Option<ContentStore>)
    requires i < |es| && es[i].Ticked?
    requires StoreAfter(store.ptr, before, es[..i], eng, cfg)
    modifies store
    ensures StoreAfter(store.ptr, before, es[..i + 1], eng, cfg)
  {
    LastGoodStep(es, i, eng, cfg);
    var k := LastGood(es[..i], eng, cfg);
    assert k.Some? ==> es[..i + 1][k.value] == es[..i][k.value];
    assert es[..i + 1][i] == es[i];
    var _ := SyncTick(es[i].tick, eng, cfg, store);
  }

  /** StartBackgroundSync over a finite run of events: ticks until the first cancellation, after
      which it returns; the store then holds the snapshot of the last tick that succeeded before
      it, or what it held before when none did. The ticker needs a positive interval. */
  method BackgroundSync(es: seq<Event>, eng: Engines, cfg: SyncConfig, store: AtomicStore) returns (consumed: nat)
    requires cfg.interval > 0
    modifies store
    ensures consumed == FirstCancel(es)
    ensures var k := LastGood(es[..consumed], eng, cfg);
      (k.None? ==> store.ptr == old(store.ptr))
      && (k.Some? ==> store.ptr.Some? && IsLoadOf(store.ptr.value, es[k.value].tick.fs, eng, cfg.dir))
  {
    var i := 0;
    while i < |es| && es[i].Ticked?
      invariant 0 <= i <= FirstCancel(es)
      invariant StoreAfter(store.ptr, old(store.ptr), es[..i], eng, cfg)
    {
      TickAt(es, i, eng, cfg, store, old(store.ptr));
      i := i + 1;
    }
    consumed := i;
    var k := LastGood(es[..i], eng, cfg);
    assert k.Some? ==> es[..i][k.value] == es[k.value];
  }
}
