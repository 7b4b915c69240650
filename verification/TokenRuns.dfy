/**
 Token sources in any number of processes sharing one cache file: callers, background
 refreshes and cache writes interleave step by step, writes may be partial or fail, and a
 process may crash at any point.

 The file system replaces the cache file atomically on rename, and never hands out the name of
 a temporary file twice. A source stands for the process it lives in.
 */
module TokenRuns {
  import opened Wrappers
  import opened Runs
  import opened TokenSource

  type Mode = nat

  /** Read and write for the owner only: 0600. */
  const PRIVATE: Mode := 0x180

  datatype File = File(content: string, mode: Mode)

  /** The clock, the shared files, the temporary names handed out so far, and the tokens STS has minted. */
  datatype World = World(
    now: int, cache: Option<File>, temps: map<nat, File>, used: set<nat>, minted: set<string>)

  datatype SourceState = SourceState(
    source: Source, decode: Decoder, refreshing: bool, lock: Option<nat>, lastErr: Option<MintError>)

  /** A token served from the cache, with its expiry and the time it was checked. */
  datatype Served = Served(token: string, exp: int, checkedAt: int)

  /** The steps of a cache write; `temp` is the writer's temporary file. */
  datatype Stage =
    | MakeDir
    | CreateTemp
    | Chmod(temp: nat)
    | WriteData(temp: nat, written: nat)
    | Close(temp: nat)
    | Rename(temp: nat)
    | Remove(temp: nat)

  /** What a thread does next. A caller runs up to `Returned`; a refresh from `MintRefresh` to `Ended`. */
  datatype Pc =
    | ReadFile
    | CheckFile(content: string)
    | Compare(served: Served)
    | WantLock(served: Served)
    | TestFlag(served: Served)
    | Unlock(served: Served, spawn: bool)
    | Spawn(served: Served)
    | MintSync
    | Write(stage: Stage, token: string, background: bool)
    | Returned(result: Result<string, MintError>, fromCache: Option<Served>)
    | MintRefresh
    | WantErrLock(minted: Result<string, MintError>)
    | SetErr(minted: Result<string, MintError>)
    | WantClearLock
    | ClearFlag
    | ClearUnlock
    | Ended

  datatype Thread = Thread(home: nat, pc: Pc)

  datatype State = State(world: World, sources: map<nat, SourceState>, threads: map<nat, Thread>)

  // ---------- Steps ----------

  function AfterWrite(token: string, background: bool): Pc {
    if background then WantClearLock else Returned(Success(token), None)
  }

  function Appended(file: File, data: string): File {
    file.(content := file.content + data)
  }

  /** One step of a cache write. Every failure leads to the removal of the temporary file. */
  ghost predicate Writes(stage: Stage, token: string, background: bool, w: World, pc': Pc, w': World) {
    var next := (stage': Stage) => Write(stage', token, background);
    match stage
    case MakeDir => w' == w && (pc' == next(CreateTemp) || pc' == AfterWrite(token, background))
    case CreateTemp =>
      || (w' == w && pc' == AfterWrite(token, background))
      || (exists temp, mode ::
            temp !in w.used && pc' == next(Chmod(temp))
            && w' == w.(temps := w.temps[temp := File("", mode)], used := w.used + {temp}))
    case Chmod(temp) =>
      || (w' == w && pc' == next(Remove(temp)))
      || (temp in w.temps && pc' == next(WriteData(temp, 0))
          && w' == w.(temps := w.temps[temp := w.temps[temp].(mode := PRIVATE)]))
    case WriteData(temp, written) =>
      || (w' == w && pc' == next(Remove(temp)))
      || (w' == w && written == |token| && pc' == next(Close(temp)))
      || (exists more :: written < more <= |token| && temp in w.temps && pc' == next(WriteData(temp, more))
            && w' == w.(temps := w.temps[temp := Appended(w.temps[temp], token[written..more])]))
    case Close(temp) => w' == w && (pc' == next(Remove(temp)) || pc' == next(Rename(temp)))
    case Rename(temp) =>
      pc' == next(Remove(temp)) &&
      (w' == w || (temp in w.temps && w' == w.(cache := Some(w.temps[temp]), temps := w.temps - {temp})))
    case Remove(temp) => pc' == AfterWrite(token, background) && (w' == w || w' == w.(temps := w.temps - {temp}))
  }

  /** One step of thread `t` of a source, apart from starting the refresh. */
  ghost predicate Moves(t: nat, src: SourceState, pc: Pc, w: World, src': SourceState, pc': Pc, w': World) {
    match pc
    case ReadFile =>
      src' == src && w' == w && (pc' == MintSync || (w.cache.Some? && pc' == CheckFile(w.cache.value.content)))
    case CheckFile(content) => src' == src && w' == w && pc' == AfterCheck(src, content, w.now)
    case Compare(served) =>
      src' == src && w' == w
      && pc' == if served.exp - w.now < src.source.refreshBefore then WantLock(served)
                else Returned(Success(served.token), Some(served))
    case WantLock(served) => src.lock.None? && src' == src.(lock := Some(t)) && w' == w && pc' == TestFlag(served)
    case TestFlag(served) => w' == w && src' == src.(refreshing := true) && pc' == Unlock(served, !src.refreshing)
    case Unlock(served, spawn) =>
      w' == w && src' == src.(lock := None)
      && pc' == if spawn then Spawn(served) else Returned(Success(served.token), Some(served))
    case Spawn(_) => false
    case MintSync =>
      src' == src && exists reply :: Mints(reply, w, w') && pc' == AfterSyncMint(src.source, Minted(reply))
    case Write(stage, token, background) => src' == src && Writes(stage, token, background, w, pc', w')
    case Returned(_, _) => false
    case MintRefresh => src' == src && exists reply :: Mints(reply, w, w') && pc' == WantErrLock(Minted(reply))
    case WantErrLock(minted) => src.lock.None? && src' == src.(lock := Some(t)) && w' == w && pc' == SetErr(minted)
    case SetErr(minted) =>
      w' == w && src' == src.(lock := None, lastErr := if minted.Failure? then Some(minted.error) else None)
      && pc' == if minted.Failure? then WantClearLock else Write(MakeDir, minted.value, true)
    case WantClearLock => src.lock.None? && src' == src.(lock := Some(t)) && w' == w && pc' == ClearFlag
    case ClearFlag => w' == w && src' == src.(refreshing := false) && pc' == ClearUnlock
    case ClearUnlock => w' == w && src' == src.(lock := None) && pc' == Ended
    case Ended => false
  }

  function AfterCheck(src: SourceState, content: string, now: int): Pc {
    match ReadCache(src.source, Some(content), now, src.decode)
    case Hit(token, exp) => Compare(Served(token, exp, now))
    case Miss => MintSync
  }

  function AfterSyncMint(source: Source, minted: Result<string, MintError>): Pc {
    if minted.Failure? || source.cachePath == "" then Returned(minted, None) else Write(MakeDir, minted.value, false)
  }

  ghost predicate Mints(reply: StsReply, w: World, w': World) {
    w' == if Minted(reply).Success? then w.(minted := w.minted + {Minted(reply).value}) else w
  }

  ghost predicate ThreadStep(s: State, s': State, t: nat) {
    && t in s.threads && t in s'.threads && s.threads[t].home in s.sources && s.threads[t].home in s'.sources
    && var home := s.threads[t].home;
    && s' == State(s'.world, s.sources[home := s'.sources[home]], s.threads[t := Thread(home, s'.threads[t].pc)])
    && Moves(t, s.sources[home], s.threads[t].pc, s.world, s'.sources[home], s'.threads[t].pc, s'.world)
  }

  /** The caller starts the refresh as a new thread and returns. */
  ghost predicate SpawnStep(s: State, s': State, t: nat, t': nat) {
    && t in s.threads && s.threads[t].home in s.sources && s.threads[t].pc.Spawn? && t' !in s.threads
    && var th := s.threads[t];
    && s' == s.(threads := s.threads[t := Thread(th.home, Returned(Success(th.pc.served.token), Some(th.pc.served)))]
                                    [t' := Thread(th.home, MintRefresh)])
  }

  /** A new caller of `Token`. */
  ghost predicate CallStep(s: State, s': State, t: nat, home: nat) {
    && t !in s.threads && home in s.sources
    && var first := if s.sources[home].source.cachePath == "" then MintSync else ReadFile;
    && s' == s.(threads := s.threads[t := Thread(home, first)])
  }

  /** A process starts with a fresh source. */
  ghost predicate OpenStep(s: State, s': State, home: nat) {
    && home !in s.sources && home in s'.sources
    && (forall t | t in s.threads :: s.threads[t].home != home)
    && !s'.sources[home].refreshing && s'.sources[home].lock == None
    && s' == s.(sources := s.sources[home := s'.sources[home]])
  }

  /** A process dies, with all its threads; the files stay as they are. */
  ghost predicate CrashStep(s: State, s': State, home: nat) {
    s' == s.(sources := s.sources - {home},
             threads := map t | t in s.threads && s.threads[t].home != home :: s.threads[t])
  }

  ghost predicate TickStep(s: State, s': State) {
    s'.world.now >= s.world.now && s' == s.(world := s.world.(now := s'.world.now))
  }

  ghost predicate Step(s: State, s': State) {
    || (exists t :: ThreadStep(s, s', t))
    || (exists t, t' :: SpawnStep(s, s', t, t'))
    || (exists t, home :: CallStep(s, s', t, home))
    || (exists home :: OpenStep(s, s', home))
    || (exists home :: CrashStep(s, s', home))
    || TickStep(s, s')
  }

  /** Nothing runs yet, and nothing has been minted; the cache file is whatever it is. */
  ghost predicate Starts(s: State) {
    s.sources == map[] && s.threads == map[] && s.world.temps == map[] && s.world.minted == {}
  }

  ghost function Steps(): (State, State) -> bool {
    (s, s') => Step(s, s')
  }

  ghost predicate Run(trace: seq<State>) {
    Chain(Steps(), trace) && Starts(trace[0])
  }

  // ---------- The files ----------

  /** The temporary file a thread is working on. */
  function TempOf(pc: Pc): Option<nat> {
    if !pc.Write? then None
    else
      match pc.stage
      case Chmod(temp) => Some(temp)
      case WriteData(temp, _) => Some(temp)
      case Close(temp) => Some(temp)
      case Rename(temp) => Some(temp)
      case Remove(temp) => Some(temp)
      case _ => None
  }

  /** What a writer has established: its token was minted, and its file holds the part written so far. */
  ghost predicate WriterOk(pc: Pc, w: World) {
    && (TempOf(pc).Some? ==> TempOf(pc).value in w.used)
    && (pc.Write? ==> pc.token in w.minted)
    && (pc.WantErrLock? && pc.minted.Success? ==> pc.minted.value in w.minted)
    && (pc.SetErr? && pc.minted.Success? ==> pc.minted.value in w.minted)
    && (pc.Write? ==>
          match pc.stage
          case Chmod(temp) => temp in w.temps && w.temps[temp].content == ""
          case WriteData(temp, written) =>
            written <= |pc.token| && temp in w.temps && w.temps[temp] == File(pc.token[..written], PRIVATE)
          case Close(temp) => temp in w.temps && w.temps[temp] == File(pc.token, PRIVATE)
          case Rename(temp) => temp in w.temps && w.temps[temp] == File(pc.token, PRIVATE)
          case _ => true)
  }

  /** The cache is as it was, or holds one complete minted token that only its owner can read. */
  ghost predicate CacheWhole(initial: Option<File>, w: World) {
    w.cache == initial || (w.cache.Some? && w.cache.value.content in w.minted && w.cache.value.mode == PRIVATE)
  }

  ghost predicate TempsPrivate(w: World) {
    forall temp | temp in w.temps :: temp in w.used && (w.temps[temp].content != "" ==> w.temps[temp].mode == PRIVATE)
  }

  ghost predicate FilesOk(initial: Option<File>, s: State) {
    && CacheWhole(initial, s.world) && TempsPrivate(s.world)
    && (forall t | t in s.threads :: WriterOk(s.threads[t].pc, s.world))
    && (forall t, u | t in s.threads && u in s.threads && t != u && TempOf(s.threads[t].pc).Some? ::
          TempOf(s.threads[t].pc) != TempOf(s.threads[u].pc))
  }

  /** Nothing happens to the names in `w` other than `own`, and no name is taken twice. */
  ghost predicate OnlyOwn(own: Option<nat>, w: World, w': World) {
    && w.used <= w'.used && w.minted <= w'.minted
    && forall temp | temp in w.used && own != Some(temp) ::
         (temp in w'.temps <==> temp in w.temps) && (temp in w.temps ==> w'.temps[temp] == w.temps[temp])
  }

  lemma {:induction false} WritesFrame(stage: Stage, token: string, background: bool, w: World, pc': Pc, w': World)
    requires Writes(stage, token, background, w, pc', w')
    ensures OnlyOwn(TempOf(Write(stage, token, background)), w, w')
    ensures TempOf(pc').Some? ==> TempOf(pc') == TempOf(Write(stage, token, background)) || TempOf(pc').value !in w.used
  {}

  /** A step of one thread changes no temporary file but its own. */
  lemma {:induction false} WriteFrame(t: nat, src: SourceState, pc: Pc, w: World, src': SourceState, pc': Pc, w': World)
    requires Moves(t, src, pc, w, src', pc', w')
    ensures OnlyOwn(TempOf(pc), w, w')
    ensures TempOf(pc').Some? ==> TempOf(pc') == TempOf(pc) || TempOf(pc').value !in w.used
  {
    if pc.Write? {
      WritesFrame(pc.stage, pc.token, pc.background, w, pc', w');
    }
  }

  lemma {:induction false} WritesKeep(
    initial: Option<File>, stage: Stage, token: string, background: bool, w: World, pc': Pc, w': World)
    requires Writes(stage, token, background, w, pc', w')
    requires WriterOk(Write(stage, token, background), w) && CacheWhole(initial, w) && TempsPrivate(w)
    ensures WriterOk(pc', w') && CacheWhole(initial, w') && TempsPrivate(w')
  {
    if stage.WriteData? {
      assert token[..|token|] == token;
      if pc'.Write? && pc'.stage.WriteData? {
        assert token[..stage.written] + token[stage.written..pc'.stage.written] == token[..pc'.stage.written];
      }
    }
  }

  lemma {:induction false} WriterStep(
    initial: Option<File>, t: nat, src: SourceState, pc: Pc, w: World, src': SourceState, pc': Pc, w': World)
    requires Moves(t, src, pc, w, src', pc', w') && WriterOk(pc, w) && CacheWhole(initial, w) && TempsPrivate(w)
    ensures WriterOk(pc', w') && CacheWhole(initial, w') && TempsPrivate(w')
  {
    if pc.Write? {
      WritesKeep(initial, pc.stage, pc.token, pc.background, w, pc', w');
    }
  }

  lemma WriterUndisturbed(pc: Pc, w: World, w': World)
    requires WriterOk(pc, w) && w.used <= w'.used && w.minted <= w'.minted
    requires TempOf(pc).Some? ==>
               var temp := TempOf(pc).value;
               (temp in w'.temps <==> temp in w.temps) && (temp in w.temps ==> w'.temps[temp] == w.temps[temp])
    ensures WriterOk(pc, w')
  {}

  lemma {:induction false} ThreadStepFiles(initial: Option<File>, s: State, s': State, t: nat)
    requires FilesOk(initial, s) && ThreadStep(s, s', t)
    ensures FilesOk(initial, s')
  {
    var home := s.threads[t].home;
    var pc, pc' := s.threads[t].pc, s'.threads[t].pc;
    WriteFrame(t, s.sources[home], pc, s.world, s'.sources[home], pc', s'.world);
    WriterStep(initial, t, s.sources[home], pc, s.world, s'.sources[home], pc', s'.world);
    forall u | u in s'.threads && u != t
      ensures WriterOk(s'.threads[u].pc, s'.world)
      ensures TempOf(s'.threads[u].pc).Some? ==> TempOf(s'.threads[u].pc) != TempOf(pc')
    {
      assert s'.threads[u] == s.threads[u];
      WriterUndisturbed(s.threads[u].pc, s.world, s'.world);
    }
  }

  lemma {:induction false} OtherStepFiles(initial: Option<File>, s: State, s': State)
    requires FilesOk(initial, s) && Step(s, s') && !(exists t :: ThreadStep(s, s', t))
    ensures FilesOk(initial, s')
  {
    assert s'.world.(now := s.world.now) == s.world;
    forall t | t in s'.threads
      ensures WriterOk(s'.threads[t].pc, s'.world)
      ensures TempOf(s'.threads[t].pc).Some? ==> t in s.threads && s'.threads[t] == s.threads[t]
    {}
  }

  lemma {:induction false} StepFiles(initial: Option<File>, s: State, s': State)
    requires FilesOk(initial, s) && Step(s, s')
    ensures FilesOk(initial, s')
  {
    if t :| ThreadStep(s, s', t) {
      ThreadStepFiles(initial, s, s', t);
    } else {
      OtherStepFiles(initial, s, s');
    }
  }

  /**
   Cache integrity, over every interleaving with partial writes, errors and crashes: the cache
   path holds its initial content or one complete minted token in a 0600 file, and every
   temporary file that has received a byte of a token has mode 0600.
   */
  lemma {:induction false} CacheIntegrity(trace: seq<State>, i: nat)
    requires Run(trace) && i < |trace|
    ensures CacheWhole(trace[0].world.cache, trace[i].world)
    ensures forall temp | temp in trace[i].world.temps :: trace[i].world.temps[temp].content != "" ==>
              trace[i].world.temps[temp].mode == PRIVATE
  {
    var initial := trace[0].world.cache;
    forall s, s' | FilesOk(initial, s) && Steps()(s, s') ensures FilesOk(initial, s') {
      StepFiles(initial, s, s');
    }
    Invariance(Steps(), trace, s => FilesOk(initial, s), i);
  }

  // ---------- The refresh flag ----------

  /** The thread holds its source's mutex. */
  predicate Holds(pc: Pc) {
    pc.TestFlag? || pc.Unlock? || pc.SetErr? || pc.ClearFlag? || pc.ClearUnlock?
  }

  /** The thread carries an outstanding refresh: from setting the flag to clearing it. */
  predicate Outstanding(pc: Pc) {
    || (pc.Unlock? && pc.spawn) || pc.Spawn? || pc.MintRefresh? || pc.WantErrLock? || pc.SetErr?
    || (pc.Write? && pc.background) || pc.WantClearLock? || pc.ClearFlag?
  }

  ghost predicate Carries(s: State, t: nat, home: nat) {
    t in s.threads && s.threads[t].home == home && Outstanding(s.threads[t].pc)
  }

  ghost predicate FlagsOk(s: State) {
    && (forall t | t in s.threads :: s.threads[t].home in s.sources)
    && (forall t | t in s.threads && Holds(s.threads[t].pc) :: s.sources[s.threads[t].home].lock == Some(t))
    && (forall home | home in s.sources :: s.sources[home].refreshing <==> exists t :: Carries(s, t, home))
    && (forall t, u, home | Carries(s, t, home) && Carries(s, u, home) :: t == u)
  }

  lemma {:induction false} FlagMoves(t: nat, src: SourceState, pc: Pc, w: World, src': SourceState, pc': Pc, w': World)
    requires Moves(t, src, pc, w, src', pc', w')
    requires Holds(pc) ==> src.lock == Some(t)
    requires Outstanding(pc) ==> src.refreshing
    ensures Holds(pc') ==> src'.lock == Some(t)
    ensures src'.lock == src.lock || src.lock == None || src.lock == Some(t)
    ensures Outstanding(pc') && !Outstanding(pc) ==> !src.refreshing && src'.refreshing
    ensures Outstanding(pc) && !Outstanding(pc') ==> src.refreshing && !src'.refreshing
    ensures Outstanding(pc) == Outstanding(pc') ==> src'.refreshing == src.refreshing
  {
    if pc.Write? {
      WritesMintNothing(pc.stage, pc.token, pc.background, w, pc', w');
    }
  }

  lemma {:induction false} ThreadStepFlags(s: State, s': State, t: nat)
    requires FlagsOk(s) && ThreadStep(s, s', t)
    ensures FlagsOk(s')
  {
    var home := s.threads[t].home;
    var pc, pc' := s.threads[t].pc, s'.threads[t].pc;
    assert Outstanding(pc) ==> Carries(s, t, home);
    FlagMoves(t, s.sources[home], pc, s.world, s'.sources[home], pc', s'.world);
    forall u, h | u != t ensures Carries(s', u, h) <==> Carries(s, u, h) {}
    forall h ensures Carries(s', t, h) <==> h == home && Outstanding(pc') {}
    forall u | u in s'.threads && Holds(s'.threads[u].pc) ensures s'.sources[s'.threads[u].home].lock == Some(u) {}
    forall h | h in s'.sources ensures s'.sources[h].refreshing <==> exists u :: Carries(s', u, h) {
      if h == home {
        FlagAtHome(s, s', t, home);
      } else {
        assert forall u :: Carries(s', u, h) <==> Carries(s, u, h);
      }
    }
  }

  lemma FlagAtHome(s: State, s': State, t: nat, home: nat)
    requires FlagsOk(s) && ThreadStep(s, s', t) && home == s.threads[t].home
    requires forall u, h | u != t :: Carries(s', u, h) <==> Carries(s, u, h)
    ensures s'.sources[home].refreshing <==> exists u :: Carries(s', u, home)
  {
    var pc, pc' := s.threads[t].pc, s'.threads[t].pc;
    assert Outstanding(pc) ==> Carries(s, t, home);
    FlagMoves(t, s.sources[home], pc, s.world, s'.sources[home], pc', s'.world);
    assert Carries(s', t, home) <==> Outstanding(pc');
    if s.sources[home].refreshing {
      var u :| Carries(s, u, home);
    }
  }

  lemma {:induction false} SpawnStepFlags(s: State, s': State, t: nat, t': nat)
    requires FlagsOk(s) && SpawnStep(s, s', t, t')
    ensures FlagsOk(s')
  {
    var home := s.threads[t].home;
    assert Carries(s, t, home) && Carries(s', t', home);
    forall u, h | u != t && u != t' ensures Carries(s', u, h) <==> Carries(s, u, h) {}
    forall h | h in s'.sources ensures s'.sources[h].refreshing <==> exists u :: Carries(s', u, h) {
      if h != home && s.sources[h].refreshing {
        var u :| Carries(s, u, h);
        assert Carries(s', u, h);
      }
    }
  }

  lemma {:induction false} CrashStepFlags(s: State, s': State, home: nat)
    requires FlagsOk(s) && CrashStep(s, s', home)
    ensures FlagsOk(s')
  {
    forall t, h ensures Carries(s', t, h) <==> h != home && Carries(s, t, h) {}
    forall h | h in s'.sources ensures s'.sources[h].refreshing <==> exists u :: Carries(s', u, h) {
      if s.sources[h].refreshing {
        var u :| Carries(s, u, h);
        assert Carries(s', u, h);
      }
    }
  }

  /** Arrivals, new processes and the clock start and end no refresh. */
  lemma {:induction false} OtherStepFlags(s: State, s': State)
    requires FlagsOk(s)
    requires (exists t, home :: CallStep(s, s', t, home)) || (exists home :: OpenStep(s, s', home)) || TickStep(s, s')
    ensures FlagsOk(s')
  {
    forall t, h ensures Carries(s', t, h) <==> Carries(s, t, h) {}
  }

  lemma {:induction false} StepFlags(s: State, s': State)
    requires FlagsOk(s) && Step(s, s')
    ensures FlagsOk(s')
  {
    if t :| ThreadStep(s, s', t) {
      ThreadStepFlags(s, s', t);
    } else if t, t' :| SpawnStep(s, s', t, t') {
      SpawnStepFlags(s, s', t, t');
    } else if home :| CrashStep(s, s', home) {
      CrashStepFlags(s, s', home);
    } else {
      OtherStepFlags(s, s');
    }
  }

  lemma {:induction false} AlwaysFlagsOk(trace: seq<State>, i: nat)
    requires Run(trace) && i < |trace|
    ensures FlagsOk(trace[i])
  {
    forall s, s' | FlagsOk(s) && Steps()(s, s') ensures FlagsOk(s') {
      StepFlags(s, s');
    }
    Invariance(Steps(), trace, s => FlagsOk(s), i);
  }

  /**
   Single flight, in every reachable state: a source's flag is set exactly when a refresh is
   outstanding, no two are, and so at most one background mint runs per source.
   */
  lemma {:induction false} SingleFlight(trace: seq<State>, i: nat, home: nat)
    requires Run(trace) && i < |trace| && home in trace[i].sources
    ensures trace[i].sources[home].refreshing <==> exists t :: Carries(trace[i], t, home)
    ensures forall t, u | Carries(trace[i], t, home) && Carries(trace[i], u, home) :: t == u
    ensures forall t, u | t in trace[i].threads && u in trace[i].threads
                          && trace[i].threads[t] == Thread(home, MintRefresh)
                          && trace[i].threads[u] == Thread(home, MintRefresh) :: t == u
  {
    AlwaysFlagsOk(trace, i);
    forall t, u | t in trace[i].threads && u in trace[i].threads
                  && trace[i].threads[t] == Thread(home, MintRefresh)
                  && trace[i].threads[u] == Thread(home, MintRefresh)
      ensures t == u
    {
      assert Carries(trace[i], t, home) && Carries(trace[i], u, home);
    }
  }

  /** How much of a refresh is left to do after its mint. */
  function Remaining(pc: Pc): nat {
    match pc
    case WantErrLock(minted) => 19 + if minted.Success? then |minted.value| else 0
    case SetErr(minted) => 18 + if minted.Success? then |minted.value| else 0
    case Write(stage, token, _) => 4 + StagesLeft(stage, token)
    case WantClearLock => 3
    case ClearFlag => 2
    case ClearUnlock => 1
    case _ => 0
  }

  function StagesLeft(stage: Stage, token: string): nat {
    match stage
    case MakeDir => 7 + |token|
    case CreateTemp => 6 + |token|
    case Chmod(_) => 5 + |token|
    case WriteData(_, written) => 4 + if written <= |token| then |token| - written else 0
    case Close(_) => 3
    case Rename(_) => 2
    case Remove(_) => 1
  }

  /** A refresh past its mint, up to its end. */
  predicate Finishing(pc: Pc) {
    || pc.WantErrLock? || pc.SetErr? || (pc.Write? && pc.background)
    || pc.WantClearLock? || pc.ClearFlag? || pc.ClearUnlock? || pc.Ended?
  }

  lemma {:induction false} FinishingMoves(
    t: nat, src: SourceState, pc: Pc, w: World, src': SourceState, pc': Pc, w': World)
    requires Moves(t, src, pc, w, src', pc', w') && Finishing(pc)
    ensures Finishing(pc') && Remaining(pc') < Remaining(pc)
  {}

  /** A thread that is there before and after a step was left alone by it, or moved, or started its refresh. */
  lemma {:induction false} StepOfThread(s: State, s': State, t: nat)
    requires Step(s, s') && t in s.threads && t in s'.threads
    ensures s'.threads[t] == s.threads[t] || ThreadStep(s, s', t) || s.threads[t].pc.Spawn?
  {
    if u :| ThreadStep(s, s', u) {
    } else if u, u' :| SpawnStep(s, s', u, u') {
    }
  }

  ghost predicate Lives(trace: seq<State>, t: nat, k: nat) {
    k < |trace| && t in trace[k].threads
  }

  /** How many of the steps from state `i` to state `j` are steps of the thread. */
  ghost function OwnSteps(trace: seq<State>, t: nat, i: nat, j: nat): nat
    requires i <= j < |trace| && forall k | i <= k <= j :: Lives(trace, t, k)
    decreases j - i
  {
    if i == j then 0
    else
      assert Lives(trace, t, j) && Lives(trace, t, j - 1);
      OwnSteps(trace, t, i, j - 1) + if trace[j].threads[t] == trace[j - 1].threads[t] then 0 else 1
  }

  /**
   Whichever way a refresh goes after its mint, in every run: it stays a refresh, and the steps
   it takes are no more than the stages and the characters of its token account for.
   */
  lemma {:induction false} RefreshIsBounded(trace: seq<State>, t: nat, i: nat, j: nat)
    requires Run(trace) && i <= j < |trace| && forall k | i <= k <= j :: Lives(trace, t, k)
    requires Lives(trace, t, i) && Finishing(trace[i].threads[t].pc)
    ensures Lives(trace, t, j) && Finishing(trace[j].threads[t].pc)
    ensures OwnSteps(trace, t, i, j) + Remaining(trace[j].threads[t].pc) <= Remaining(trace[i].threads[t].pc)
    decreases j - i
  {
    if i < j {
      RefreshIsBounded(trace, t, i, j - 1);
      assert Lives(trace, t, j);
      assert StepAt(Steps(), trace, j);
      FinishingStep(trace[j - 1], trace[j], t);
    }
  }

  lemma {:induction false} FinishingStep(s: State, s': State, t: nat)
    requires Step(s, s') && t in s.threads && t in s'.threads && Finishing(s.threads[t].pc)
    ensures s'.threads[t] == s.threads[t] ||
            (Finishing(s'.threads[t].pc) && Remaining(s'.threads[t].pc) < Remaining(s.threads[t].pc))
  {
    StepOfThread(s, s', t);
    if s'.threads[t] != s.threads[t] {
      var home := s.threads[t].home;
      FinishingMoves(t, s.sources[home], s.threads[t].pc, s.world, s'.sources[home], s'.threads[t].pc, s'.world);
    }
  }

  // ---------- No refresh gets stuck ----------

  /** A locked mutex is held by a thread of its source that is there and at work under it. */
  ghost predicate LocksOk(s: State) {
    forall home | home in s.sources && s.sources[home].lock.Some? :: HeldBy(s, home, s.sources[home].lock.value)
  }

  ghost predicate HeldBy(s: State, home: nat, t: nat) {
    t in s.threads && s.threads[t].home == home && Holds(s.threads[t].pc)
  }

  lemma {:induction false} LockMoves(t: nat, src: SourceState, pc: Pc, w: World, src': SourceState, pc': Pc, w': World)
    requires Moves(t, src, pc, w, src', pc', w') && (Holds(pc) ==> src.lock == Some(t))
    ensures src'.lock == if Holds(pc') then Some(t) else if Holds(pc) then None else src.lock
  {
    if pc.Write? {
      WritesMintNothing(pc.stage, pc.token, pc.background, w, pc', w');
    }
  }

  lemma {:induction false} ThreadStepLocks(s: State, s': State, t: nat)
    requires FlagsOk(s) && LocksOk(s) && ThreadStep(s, s', t)
    ensures LocksOk(s')
  {
    var home := s.threads[t].home;
    LockMoves(t, s.sources[home], s.threads[t].pc, s.world, s'.sources[home], s'.threads[t].pc, s'.world);
    forall h | h in s'.sources && s'.sources[h].lock.Some? ensures HeldBy(s', h, s'.sources[h].lock.value) {
      if h != home || s'.sources[h].lock != Some(t) {
        assert HeldBy(s, h, s.sources[h].lock.value);
      }
    }
  }

  lemma {:induction false} OtherStepLocks(s: State, s': State)
    requires LocksOk(s) && Step(s, s') && !(exists t :: ThreadStep(s, s', t))
    ensures LocksOk(s')
  {
    forall h | h in s'.sources && s'.sources[h].lock.Some? ensures HeldBy(s', h, s'.sources[h].lock.value) {
      assert h in s.sources && s'.sources[h] == s.sources[h];
      assert HeldBy(s, h, s.sources[h].lock.value);
    }
  }

  lemma {:induction false} AlwaysLocksOk(trace: seq<State>, i: nat)
    requires Run(trace) && i < |trace|
    ensures FlagsOk(trace[i]) && LocksOk(trace[i])
  {
    forall s, s' | FlagsOk(s) && LocksOk(s) && Steps()(s, s') ensures FlagsOk(s') && LocksOk(s') {
      StepFlags(s, s');
      if t :| ThreadStep(s, s', t) {
        ThreadStepLocks(s, s', t);
      } else {
        OtherStepLocks(s, s');
      }
    }
    Invariance(Steps(), trace, s => FlagsOk(s) && LocksOk(s), i);
  }

  ghost predicate CanMove(s: State, t: nat) {
    exists s' :: ThreadStep(s, s', t)
  }

  predicate WaitsForLock(pc: Pc) {
    pc.WantErrLock? || pc.WantClearLock?
  }

  /** A thread at work under the mutex, or on a refresh past its mint, has a next move. */
  lemma {:induction false} NextMove(t: nat, src: SourceState, pc: Pc, w: World)
    returns (src': SourceState, pc': Pc, w': World)
    requires (Finishing(pc) && !pc.Ended?) || Holds(pc)
    requires WaitsForLock(pc) ==> src.lock.None?
    ensures Moves(t, src, pc, w, src', pc', w')
  {
    src', w' := src, w;
    match pc
    case TestFlag(served) => src', pc' := src.(refreshing := true), Unlock(served, !src.refreshing);
    case Unlock(served, spawn) =>
      src' := src.(lock := None);
      pc' := if spawn then Spawn(served) else Returned(Success(served.token), Some(served));
    case WantErrLock(minted) => src', pc' := src.(lock := Some(t)), SetErr(minted);
    case SetErr(minted) =>
      src' := src.(lock := None, lastErr := if minted.Failure? then Some(minted.error) else None);
      pc' := if minted.Failure? then WantClearLock else Write(MakeDir, minted.value, true);
    case Write(stage, token, background) => pc' := NextStage(stage, token, background);
    case WantClearLock => src', pc' := src.(lock := Some(t)), ClearFlag;
    case ClearFlag => src', pc' := src.(refreshing := false), ClearUnlock;
    case ClearUnlock => src', pc' := src.(lock := None), Ended;
  }

  /** A write can always go on, if only by giving up. */
  function NextStage(stage: Stage, token: string, background: bool): Pc {
    match stage
    case Chmod(temp) => Write(Remove(temp), token, background)
    case WriteData(temp, _) => Write(Remove(temp), token, background)
    case Close(temp) => Write(Remove(temp), token, background)
    case Rename(temp) => Write(Remove(temp), token, background)
    case _ => AfterWrite(token, background)
  }

  lemma {:induction false} MoveIsStep(s: State, t: nat)
    requires t in s.threads && s.threads[t].home in s.sources
    requires (Finishing(s.threads[t].pc) && !s.threads[t].pc.Ended?) || Holds(s.threads[t].pc)
    requires WaitsForLock(s.threads[t].pc) ==> s.sources[s.threads[t].home].lock.None?
    ensures CanMove(s, t)
  {
    var home := s.threads[t].home;
    var src', pc', w' := NextMove(t, s.sources[home], s.threads[t].pc, s.world);
    assert ThreadStep(s, State(w', s.sources[home := src'], s.threads[t := Thread(home, pc')]), t);
  }

  /** Thread `t` wants the mutex of its source, which thread `u` of that source holds. */
  ghost predicate WaitsFor(s: State, t: nat, u: nat) {
    t in s.threads && WaitsForLock(s.threads[t].pc) && HeldBy(s, s.threads[t].home, u)
  }

  /**
   No refresh gets stuck, in every reachable state: until it has ended, a refresh past its mint can
   move itself, or waits for a mutex whose holder, a thread of the same source, can move.
   */
  lemma {:induction false} RefreshNeverStuck(trace: seq<State>, i: nat, t: nat)
    requires Run(trace) && i < |trace| && t in trace[i].threads
    requires Finishing(trace[i].threads[t].pc) && !trace[i].threads[t].pc.Ended?
    ensures exists u :: (u == t || WaitsFor(trace[i], t, u)) && CanMove(trace[i], u)
  {
    AlwaysLocksOk(trace, i);
    var s := trace[i];
    var home := s.threads[t].home;
    if WaitsForLock(s.threads[t].pc) && s.sources[home].lock.Some? {
      var u := s.sources[home].lock.value;
      assert WaitsFor(s, t, u);
      MoveIsStep(s, u);
    } else {
      MoveIsStep(s, t);
    }
  }

  // ---------- Every refresh that is over has cleared its flag ----------

  /** At step `k` of the run the thread clears the flag of its source. */
  ghost predicate ClearsAt(trace: seq<State>, t: nat, home: nat, k: nat) {
    && k + 1 < |trace| && t in trace[k].threads && trace[k].threads[t] == Thread(home, ClearFlag)
    && t in trace[k + 1].threads && trace[k + 1].threads[t] == Thread(home, ClearUnlock)
    && home in trace[k + 1].sources && !trace[k + 1].sources[home].refreshing
  }

  predicate Cleared(pc: Pc) {
    pc.ClearUnlock? || pc.Ended?
  }

  lemma {:induction false} ClearedStep(s: State, s': State, t: nat)
    requires Step(s, s') && t in s'.threads && Cleared(s'.threads[t].pc)
    ensures t in s.threads && s.threads[t].home == s'.threads[t].home
    ensures Cleared(s.threads[t].pc) ||
            (s.threads[t].pc.ClearFlag? && s'.threads[t].pc.ClearUnlock? && s'.threads[t].home in s'.sources
             && !s'.sources[s'.threads[t].home].refreshing)
  {
    BeforeStep(s, s', t);
    StepOfThread(s, s', t);
    if s'.threads[t] != s.threads[t] && s.threads[t].pc.Write? {
      var pc, home := s.threads[t].pc, s.threads[t].home;
      WritesMintNothing(pc.stage, pc.token, pc.background, s.world, s'.threads[t].pc, s'.world);
    }
  }

  /** A thread that a step adds is a caller or a refresh about to mint. */
  lemma {:induction false} BeforeStep(s: State, s': State, t: nat)
    requires Step(s, s') && t in s'.threads
    ensures t in s.threads || s'.threads[t].pc.MintSync? || s'.threads[t].pc.ReadFile? || s'.threads[t].pc.MintRefresh?
    ensures t in s.threads && s.threads[t].pc.Spawn? && s'.threads[t] != s.threads[t] ==> s'.threads[t].pc.Returned?
  {
    if u :| ThreadStep(s, s', u) {
    } else if u, u' :| SpawnStep(s, s', u, u') {
    }
  }

  /** Every way a refresh goes, in every run: one that is over has cleared its source's flag before. */
  lemma {:induction false} RefreshClearsFlag(trace: seq<State>, t: nat, i: nat)
    requires Run(trace) && i < |trace| && t in trace[i].threads && Cleared(trace[i].threads[t].pc)
    ensures exists k :: 0 <= k < i && ClearsAt(trace, t, trace[i].threads[t].home, k)
    decreases i
  {
    assert i > 0;
    assert StepAt(Steps(), trace, i);
    ClearedStep(trace[i - 1], trace[i], t);
    if Cleared(trace[i - 1].threads[t].pc) {
      RefreshClearsFlag(trace, t, i - 1);
    } else {
      assert ClearsAt(trace, t, trace[i].threads[t].home, i - 1);
    }
  }

  // ---------- What callers are given ----------

  /** A token served from the cache was unexpired and for the source's audience when it was checked. */
  ghost predicate ServedOk(src: SourceState, served: Served, now: int) {
    && served.checkedAt <= now && served.checkedAt < served.exp
    && GoodToken(src.source, served.token, served.exp, src.decode)
  }

  function ServedOf(pc: Pc): Option<Served> {
    match pc
    case Compare(served) => Some(served)
    case WantLock(served) => Some(served)
    case TestFlag(served) => Some(served)
    case Unlock(served, _) => Some(served)
    case Spawn(served) => Some(served)
    case Returned(_, fromCache) => fromCache
    case _ => None
  }

  /** The file content was there at the start, or is a token STS minted. */
  ghost predicate FromFile(initial: Option<File>, w: World, content: string) {
    (initial.Some? && content == initial.value.content) || content in w.minted
  }

  /** The token is the whole of such a content, apart from spaces around it. */
  ghost predicate WholeToken(initial: Option<File>, w: World, token: string) {
    exists content :: FromFile(initial, w, content) && token == TrimSpace(content)
  }

  /** What a caller has in hand: a whole token checked against the cache, or one that STS minted. */
  ghost predicate CallerOk(initial: Option<File>, src: SourceState, pc: Pc, w: World) {
    && (pc.CheckFile? ==> FromFile(initial, w, pc.content))
    && (ServedOf(pc).Some? ==>
          ServedOk(src, ServedOf(pc).value, w.now) && WholeToken(initial, w, ServedOf(pc).value.token))
    && (pc.Write? ==> pc.token in w.minted)
    && (pc.Returned? ==> (pc.fromCache.Some? ==> pc.result == Success(pc.fromCache.value.token))
                         && (pc.fromCache.None? && pc.result.Success? ==> pc.result.value in w.minted))
    && (pc.WantErrLock? && pc.minted.Success? ==> pc.minted.value in w.minted)
    && (pc.SetErr? && pc.minted.Success? ==> pc.minted.value in w.minted)
  }

  ghost predicate CallersOk(initial: Option<File>, s: State) {
    forall t | t in s.threads ::
      s.threads[t].home in s.sources && CallerOk(initial, s.sources[s.threads[t].home], s.threads[t].pc, s.world)
  }

  lemma WritesMintNothing(stage: Stage, token: string, background: bool, w: World, pc': Pc, w': World)
    requires Writes(stage, token, background, w, pc', w')
    ensures w'.minted == w.minted && w'.now == w.now
    ensures pc' == AfterWrite(token, background) || (pc'.Write? && pc'.token == token && pc'.background == background)
  {}

  /** What a check of a file content finds is a whole token. */
  lemma {:induction false} CheckedWhole(initial: Option<File>, src: SourceState, content: string, w: World)
    requires FromFile(initial, w, content)
    ensures CallerOk(initial, src, AfterCheck(src, content, w.now), w)
  {
    if ReadCache(src.source, Some(content), w.now, src.decode).Hit? {
      HitIsValid(src.source, Some(content), w.now, src.decode);
      assert WholeToken(initial, w, TrimSpace(content));
    }
  }

  lemma WholeStays(initial: Option<File>, w: World, w': World, token: string)
    requires w.minted <= w'.minted && WholeToken(initial, w, token)
    ensures WholeToken(initial, w', token)
  {
    var content :| FromFile(initial, w, content) && token == TrimSpace(content);
    assert FromFile(initial, w', content);
  }

  /** Time and more minted tokens take nothing away from a caller. */
  lemma CallerStays(initial: Option<File>, src: SourceState, src': SourceState, pc: Pc, w: World, w': World)
    requires CallerOk(initial, src, pc, w) && w.minted <= w'.minted && w.now <= w'.now
    requires src'.source == src.source && src'.decode == src.decode
    ensures CallerOk(initial, src', pc, w')
  {
    if ServedOf(pc).Some? {
      WholeStays(initial, w, w', ServedOf(pc).value.token);
    }
  }

  lemma {:induction false} MovesFrame(t: nat, src: SourceState, pc: Pc, w: World, src': SourceState, pc': Pc, w': World)
    requires Moves(t, src, pc, w, src', pc', w')
    ensures src'.source == src.source && src'.decode == src.decode && w'.now == w.now && w.minted <= w'.minted
  {
    if pc.Write? {
      WritesMintNothing(pc.stage, pc.token, pc.background, w, pc', w');
    }
  }

  /** A token served from the cache is handed on unchanged. */
  lemma {:induction false} ServedMoves(
    initial: Option<File>, t: nat, src: SourceState, pc: Pc, w: World, src': SourceState, pc': Pc, w': World)
    requires Moves(t, src, pc, w, src', pc', w') && CallerOk(initial, src, pc, w) && ServedOf(pc).Some?
    ensures CallerOk(initial, src', pc', w')
  {
    assert w' == w && ServedOf(pc') == ServedOf(pc);
    assert src'.source == src.source && src'.decode == src.decode;
  }

  lemma {:induction false} CallerMoves(
    initial: Option<File>, t: nat, src: SourceState, pc: Pc, w: World, src': SourceState, pc': Pc, w': World)
    requires Moves(t, src, pc, w, src', pc', w') && CallerOk(initial, src, pc, w) && CacheWhole(initial, w)
    ensures CallerOk(initial, src', pc', w')
  {
    MovesFrame(t, src, pc, w, src', pc', w');
    if ServedOf(pc).Some? {
      ServedMoves(initial, t, src, pc, w, src', pc', w');
    } else if pc.Write? {
      WritesMintNothing(pc.stage, pc.token, pc.background, w, pc', w');
    } else if pc.CheckFile? {
      CheckedWhole(initial, src, pc.content, w);
    }
  }

  lemma {:induction false} ThreadStepCallers(initial: Option<File>, s: State, s': State, t: nat)
    requires CallersOk(initial, s) && CacheWhole(initial, s.world) && ThreadStep(s, s', t)
    ensures CallersOk(initial, s')
  {
    var home := s.threads[t].home;
    var pc, pc' := s.threads[t].pc, s'.threads[t].pc;
    MovesFrame(t, s.sources[home], pc, s.world, s'.sources[home], pc', s'.world);
    CallerMoves(initial, t, s.sources[home], pc, s.world, s'.sources[home], pc', s'.world);
    forall u | u in s'.threads && u != t
      ensures s'.threads[u].home in s'.sources
              && CallerOk(initial, s'.sources[s'.threads[u].home], s'.threads[u].pc, s'.world)
    {
      assert s'.threads[u] == s.threads[u];
      var h := s.threads[u].home;
      CallerStays(initial, s.sources[h], s'.sources[h], s.threads[u].pc, s.world, s'.world);
    }
  }

  lemma {:induction false} SpawnStepCallers(initial: Option<File>, s: State, s': State, t: nat, t': nat)
    requires CallersOk(initial, s) && SpawnStep(s, s', t, t')
    ensures CallersOk(initial, s')
  {
    assert s'.sources == s.sources && s'.world == s.world;
    forall u | u in s'.threads
      ensures s'.threads[u].home in s.sources
              && CallerOk(initial, s.sources[s'.threads[u].home], s'.threads[u].pc, s.world)
    {
      if u == t {
        SpawnerReturns(initial, s.sources[s.threads[t].home], s.threads[t].pc.served, s.world);
      } else if u != t' {
        assert s'.threads[u] == s.threads[u];
      }
    }
  }

  lemma SpawnerReturns(initial: Option<File>, src: SourceState, served: Served, w: World)
    requires CallerOk(initial, src, Spawn(served), w)
    ensures CallerOk(initial, src, Returned(Success(served.token), Some(served)), w)
  {}

  /** Any other step leaves the files and the tokens alone, and what threads it adds have nothing in hand. */
  lemma {:induction false} OtherStepCallers(initial: Option<File>, s: State, s': State)
    requires CallersOk(initial, s) && Step(s, s')
    requires !(exists t :: ThreadStep(s, s', t)) && !(exists t, t' :: SpawnStep(s, s', t, t'))
    ensures CallersOk(initial, s')
  {
    forall t | t in s'.threads
      ensures s'.threads[t].home in s'.sources
              && CallerOk(initial, s'.sources[s'.threads[t].home], s'.threads[t].pc, s'.world)
    {
      OtherThread(s, s', t);
      if t in s.threads {
        var src := s.sources[s.threads[t].home];
        CallerStays(initial, src, src, s.threads[t].pc, s.world, s'.world);
      }
    }
  }

  lemma {:induction false} OtherThread(s: State, s': State, t: nat)
    requires Step(s, s') && t in s'.threads
    requires !(exists t :: ThreadStep(s, s', t)) && !(exists t, t' :: SpawnStep(s, s', t, t'))
    requires forall t | t in s.threads :: s.threads[t].home in s.sources
    ensures s'.threads[t].home in s'.sources && s.world.now <= s'.world.now && s'.world.minted == s.world.minted
    ensures if t in s.threads
            then s'.threads[t] == s.threads[t] && s'.sources[s.threads[t].home] == s.sources[s.threads[t].home]
            else s'.threads[t].pc.MintSync? || s'.threads[t].pc.ReadFile?
  {}

  lemma {:induction false} StepCallers(initial: Option<File>, s: State, s': State)
    requires CallersOk(initial, s) && CacheWhole(initial, s.world) && Step(s, s')
    ensures CallersOk(initial, s')
  {
    if t :| ThreadStep(s, s', t) {
      ThreadStepCallers(initial, s, s', t);
    } else if t, t' :| SpawnStep(s, s', t, t') {
      SpawnStepCallers(initial, s, s', t, t');
    } else {
      OtherStepCallers(initial, s, s');
    }
  }

  /**
   In every run, a token a caller gets was minted by STS, or came from the cache and was then
   unexpired and for the audience its source is configured with; and it is the whole of a token
   that STS minted or of what the file held at the start, never a part of a write.
   */
  lemma {:induction false} TokensServedAreGood(trace: seq<State>, i: nat, t: nat)
    requires Run(trace) && i < |trace| && t in trace[i].threads
    requires trace[i].threads[t].pc.Returned? && trace[i].threads[t].pc.result.Success?
    ensures trace[i].threads[t].home in trace[i].sources
    ensures var src := trace[i].sources[trace[i].threads[t].home];
            var pc := trace[i].threads[t].pc;
            if pc.fromCache.Some?
            then && pc.fromCache.value.token == pc.result.value
                 && ServedOk(src, pc.fromCache.value, trace[i].world.now)
                 && WholeToken(trace[0].world.cache, trace[i].world, pc.result.value)
            else pc.result.value in trace[i].world.minted
  {
    var initial := trace[0].world.cache;
    forall s, s' | FilesOk(initial, s) && CallersOk(initial, s) && Steps()(s, s')
      ensures FilesOk(initial, s') && CallersOk(initial, s')
    {
      StepFiles(initial, s, s');
      StepCallers(initial, s, s');
    }
    Invariance(Steps(), trace, s => FilesOk(initial, s) && CallersOk(initial, s), i);
  }
}
