/**
 What calls and refreshes of the interleaved token sources achieve: a thread that nothing hinders
 does what the sequential model says, and in every run a caller has its reasons for asking STS and
 for serving a token near its expiry.
 */
module TokenCalls {
  import opened Wrappers
  import opened Runs
  import opened TokenSource
  import opened TokenRuns

  // ---------- What one thread achieves when nothing goes wrong ----------

  /** A thread with its source and the world: all that the thread's own steps look at. */
  datatype Solo = Solo(src: SourceState, pc: Pc, w: World)

  ghost function SoloSteps(t: nat): (Solo, Solo) -> bool {
    (a: Solo, b: Solo) => Moves(t, a.src, a.pc, a.w, b.src, b.pc, b.w)
  }

  ghost predicate Reaches(t: nat, a: Solo, b: Solo) {
    Leads(SoloSteps(t), a, b)
  }

  lemma ReachesItself(t: nat, a: Solo)
    ensures Reaches(t, a, a)
  {
    LeadsNowhere(SoloSteps(t), a);
  }

  lemma ReachesMore(t: nat, a: Solo, b: Solo, c: Solo)
    requires Reaches(t, a, b) && Moves(t, b.src, b.pc, b.w, c.src, c.pc, c.w)
    ensures Reaches(t, a, c)
  {
    LeadsOneMore(SoloSteps(t), a, b, c);
  }

  lemma ReachesOn(t: nat, a: Solo, b: Solo, c: Solo)
    requires Reaches(t, a, b) && Reaches(t, b, c)
    ensures Reaches(t, a, c)
  {
    LeadsOn(SoloSteps(t), a, b, c);
  }

  /** The world with the token in the cache file, readable by its owner only, and one more name used up. */
  function Stored(w: World, token: string, temp: nat): World {
    w.(cache := Some(File(token, PRIVATE)), temps := w.temps - {temp}, used := w.used + {temp})
  }

  /** A write whose steps all succeed puts the whole token into the cache file. */
  lemma {:induction false} WriteStores(
    t: nat, src: SourceState, token: string, background: bool, w: World, temp: nat)
    requires temp !in w.used
    ensures Reaches(t, Solo(src, Write(MakeDir, token, background), w),
                    Solo(src, AfterWrite(token, background), Stored(w, token, temp)))
  {
    var start := Solo(src, Write(MakeDir, token, background), w);
    var created := w.(temps := w.temps[temp := File("", 0)], used := w.used + {temp});
    var private := created.(temps := w.temps[temp := File("", PRIVATE)]);
    var filled := created.(temps := w.temps[temp := File(token, PRIVATE)]);
    FileMade(t, src, token, background, w, temp);
    FileFilled(t, src, token, background, private, filled, temp);
    FileRenamed(t, src, token, background, filled, temp);
    var writing := Solo(src, Write(WriteData(temp, 0), token, background), private);
    var full := Solo(src, Write(WriteData(temp, |token|), token, background), filled);
    assert filled.temps - {temp} == w.temps - {temp};
    ReachesOn(t, start, writing, full);
    ReachesOn(t, start, full, Solo(src, AfterWrite(token, background), Stored(w, token, temp)));
  }

  lemma FileMade(t: nat, src: SourceState, token: string, background: bool, w: World, temp: nat)
    requires temp !in w.used
    ensures Reaches(t, Solo(src, Write(MakeDir, token, background), w),
                    Solo(src, Write(WriteData(temp, 0), token, background),
                         w.(temps := w.temps[temp := File("", PRIVATE)], used := w.used + {temp})))
  {
    var start := Solo(src, Write(MakeDir, token, background), w);
    var creating := Solo(src, Write(CreateTemp, token, background), w);
    var created := Solo(src, Write(Chmod(temp), token, background),
                        w.(temps := w.temps[temp := File("", 0)], used := w.used + {temp}));
    ReachesItself(t, start);
    ReachesMore(t, start, start, creating);
    ReachesMore(t, start, creating, created);
    var private := w.(temps := w.temps[temp := File("", PRIVATE)], used := w.used + {temp});
    assert created.w.temps[temp := File("", PRIVATE)] == private.temps;
    ReachesMore(t, start, created, Solo(src, Write(WriteData(temp, 0), token, background), private));
  }

  lemma FileFilled(
    t: nat, src: SourceState, token: string, background: bool, empty: World, filled: World, temp: nat)
    requires temp in empty.temps && empty.temps[temp] == File("", PRIVATE)
    requires filled == empty.(temps := empty.temps[temp := File(token, PRIVATE)])
    ensures Reaches(t, Solo(src, Write(WriteData(temp, 0), token, background), empty),
                    Solo(src, Write(WriteData(temp, |token|), token, background), filled))
  {
    var start := Solo(src, Write(WriteData(temp, 0), token, background), empty);
    ReachesItself(t, start);
    if token == "" {
      assert empty.temps[temp := File("", PRIVATE)] == empty.temps;
    } else {
      assert "" + token[0..|token|] == token;
      ReachesMore(t, start, start, Solo(src, Write(WriteData(temp, |token|), token, background), filled));
    }
  }

  lemma FileRenamed(t: nat, src: SourceState, token: string, background: bool, filled: World, temp: nat)
    requires temp in filled.temps && filled.temps[temp] == File(token, PRIVATE)
    ensures Reaches(t, Solo(src, Write(WriteData(temp, |token|), token, background), filled),
                    Solo(src, AfterWrite(token, background),
                         filled.(cache := Some(File(token, PRIVATE)), temps := filled.temps - {temp})))
  {
    var start := Solo(src, Write(WriteData(temp, |token|), token, background), filled);
    var closing := start.(pc := Write(Close(temp), token, background));
    var renaming := start.(pc := Write(Rename(temp), token, background));
    var after := filled.(cache := Some(File(token, PRIVATE)), temps := filled.temps - {temp});
    var removing := Solo(src, Write(Remove(temp), token, background), after);
    ReachesItself(t, start);
    ReachesMore(t, start, start, closing);
    ReachesMore(t, start, closing, renaming);
    ReachesMore(t, start, renaming, removing);
    ReachesMore(t, start, removing, Solo(src, AfterWrite(token, background), after));
  }

  /**
   A refresh that nothing hinders replaces the cached token by the one STS answers with, clears the
   recorded error, and ends with the flag cleared.
   */
  lemma {:induction false} RefreshReplaces(t: nat, src: SourceState, w: World, token: string, temp: nat)
    requires src.lock == None && token != "" && temp !in w.used
    ensures Reaches(t, Solo(src, MintRefresh, w),
                    Solo(src.(refreshing := false, lastErr := None), Ended,
                         Stored(w.(minted := w.minted + {token}), token, temp)))
  {
    var start := Solo(src, MintRefresh, w);
    var w1 := w.(minted := w.minted + {token});
    var minted: Result<string, MintError> := Success(token);
    assert Minted(StsToken(token)) == minted && Mints(StsToken(token), w, w1);
    ReachesItself(t, start);
    ReachesMore(t, start, start, Solo(src, WantErrLock(minted), w1));
    ReachesMore(t, start, Solo(src, WantErrLock(minted), w1), Solo(src.(lock := Some(t)), SetErr(minted), w1));
    var calm := src.(lastErr := None);
    ReachesMore(t, start, Solo(src.(lock := Some(t)), SetErr(minted), w1), Solo(calm, Write(MakeDir, token, true), w1));
    WriteStores(t, calm, token, true, w1, temp);
    var w2 := Stored(w1, token, temp);
    ReachesOn(t, start, Solo(calm, Write(MakeDir, token, true), w1), Solo(calm, WantClearLock, w2));
    FlagCleared(t, start, calm, w2);
  }

  lemma FlagCleared(t: nat, start: Solo, src: SourceState, w: World)
    requires src.lock == None && Reaches(t, start, Solo(src, WantClearLock, w))
    ensures Reaches(t, start, Solo(src.(refreshing := false), Ended, w))
  {
    var held := src.(lock := Some(t));
    var cleared := held.(refreshing := false);
    ReachesMore(t, start, Solo(src, WantClearLock, w), Solo(held, ClearFlag, w));
    ReachesMore(t, start, Solo(held, ClearFlag, w), Solo(cleared, ClearUnlock, w));
    ReachesMore(t, start, Solo(cleared, ClearUnlock, w), Solo(src.(refreshing := false), Ended, w));
  }

  /** A refresh that STS fails records the error, leaves the file alone, and clears the flag all the same. */
  lemma {:induction false} RefreshFails(t: nat, src: SourceState, w: World)
    requires src.lock == None
    ensures Reaches(t, Solo(src, MintRefresh, w),
                    Solo(src.(refreshing := false, lastErr := Some(StsFailed)), Ended, w))
  {
    var start := Solo(src, MintRefresh, w);
    var minted: Result<string, MintError> := Failure(StsFailed);
    assert Minted(StsError) == minted && Mints(StsError, w, w);
    ReachesItself(t, start);
    ReachesMore(t, start, start, Solo(src, WantErrLock(minted), w));
    ReachesMore(t, start, Solo(src, WantErrLock(minted), w), Solo(src.(lock := Some(t)), SetErr(minted), w));
    var told := src.(lastErr := Some(StsFailed));
    ReachesMore(t, start, Solo(src.(lock := Some(t)), SetErr(minted), w), Solo(told, WantClearLock, w));
    FlagCleared(t, start, told, w);
  }

  /** Where the call stands when it returns by itself, with a refresh to start or without. */
  function CallEnd(call: CallEffect, served: Option<Served>, refreshing: bool): Pc {
    if call.refreshes && !refreshing && served.Some? then Spawn(served.value) else Returned(call.result, served)
  }

  function FileContent(w: World): Option<string> {
    if w.cache.Some? then Some(w.cache.value.content) else None
  }

  /**
   A call that nothing hinders does what the sequential model says: it returns the same result,
   leaves the same file, and goes to start a refresh exactly when that is due and none is outstanding.
   */
  lemma {:induction false} CallAsModelled(t: nat, src: SourceState, w: World, reply: StsReply, temp: nat)
    returns (after: Solo)
    requires src.source.cachePath != "" && src.lock == None && temp !in w.used
    ensures var at := Surroundings(w.now, w.now, w.now, reply, true);
            var call := CallAlone(src.source, FileContent(w), at, src.decode);
            && Reaches(t, Solo(src, ReadFile, w), after)
            && (exists served :: after.pc == CallEnd(call, served, src.refreshing))
            && FileContent(after.w) == call.cache
            && after.src == src.(refreshing := src.refreshing || call.refreshes)
  {
    var start := Solo(src, ReadFile, w);
    var call := CallAlone(src.source, FileContent(w), Surroundings(w.now, w.now, w.now, reply, true), src.decode);
    ReachesItself(t, start);
    match ReadCache(src.source, FileContent(w), w.now, src.decode)
    case Hit(token, exp) =>
      var served := Served(token, exp, w.now);
      var checking := Solo(src, CheckFile(w.cache.value.content), w);
      ReachesMore(t, start, start, checking);
      ReachesMore(t, start, checking, Solo(src, Compare(served), w));
      after := ServedCall(t, start, src, served, w);
      assert call.refreshes <==> exp - w.now < src.source.refreshBefore;
      assert after.pc == CallEnd(call, Some(served), src.refreshing);
    case Miss =>
      MissReaches(t, src, w);
      after := MintedCall(t, start, src, w, reply, temp);
      assert !call.refreshes && src == src.(refreshing := src.refreshing);
      assert after.pc == CallEnd(call, None, src.refreshing);
  }

  lemma MissReaches(t: nat, src: SourceState, w: World)
    requires ReadCache(src.source, FileContent(w), w.now, src.decode).Miss?
    ensures Reaches(t, Solo(src, ReadFile, w), Solo(src, MintSync, w))
  {
    var start := Solo(src, ReadFile, w);
    ReachesItself(t, start);
    if w.cache.Some? {
      var checking := Solo(src, CheckFile(w.cache.value.content), w);
      ReachesMore(t, start, start, checking);
      ReachesMore(t, start, checking, Solo(src, MintSync, w));
    } else {
      ReachesMore(t, start, start, Solo(src, MintSync, w));
    }
  }

  lemma ServedCall(t: nat, start: Solo, src: SourceState, served: Served, w: World) returns (after: Solo)
    requires src.lock == None && Reaches(t, start, Solo(src, Compare(served), w))
    ensures var due := served.exp - w.now < src.source.refreshBefore;
            && Reaches(t, start, after) && after.w == w
            && after.src == src.(refreshing := src.refreshing || due)
            && after.pc == if due && !src.refreshing then Spawn(served)
                           else Returned(Success(served.token), Some(served))
  {
    var comparing := Solo(src, Compare(served), w);
    if served.exp - w.now < src.source.refreshBefore {
      var held := src.(lock := Some(t));
      var flagged := held.(refreshing := true);
      ReachesMore(t, start, comparing, Solo(src, WantLock(served), w));
      ReachesMore(t, start, Solo(src, WantLock(served), w), Solo(held, TestFlag(served), w));
      var unlocking := Solo(flagged, Unlock(served, !src.refreshing), w);
      ReachesMore(t, start, Solo(held, TestFlag(served), w), unlocking);
      after := Solo(src.(refreshing := true),
                    if src.refreshing then Returned(Success(served.token), Some(served)) else Spawn(served), w);
      ReachesMore(t, start, unlocking, after);
    } else {
      after := Solo(src, Returned(Success(served.token), Some(served)), w);
      ReachesMore(t, start, comparing, after);
    }
  }

  lemma MintedCall(t: nat, start: Solo, src: SourceState, w: World, reply: StsReply, temp: nat) returns (after: Solo)
    requires src.source.cachePath != "" && temp !in w.used && Reaches(t, start, Solo(src, MintSync, w))
    ensures Reaches(t, start, after) && after.src == src && after.pc == Returned(Minted(reply), None)
    ensures after.w.cache == if Minted(reply).Success? then Some(File(Minted(reply).value, PRIVATE)) else w.cache
  {
    var minting := Solo(src, MintSync, w);
    if Minted(reply).Success? {
      var token := Minted(reply).value;
      var w1 := w.(minted := w.minted + {token});
      assert Mints(reply, w, w1);
      var writing := Solo(src, Write(MakeDir, token, false), w1);
      ReachesMore(t, start, minting, writing);
      WriteStores(t, src, token, false, w1, temp);
      after := Solo(src, Returned(Success(token), None), Stored(w1, token, temp));
      ReachesOn(t, start, writing, after);
    } else {
      assert Mints(reply, w, w);
      after := Solo(src, Returned(Minted(reply), None), w);
      ReachesMore(t, start, minting, after);
    }
  }

  // ---------- Why a caller asks STS, and when it has the token refreshed ----------

  /** At step `k` of the run the caller finds no use in the cache file: unreadable, or a miss at that moment. */
  ghost predicate MissesAt(trace: seq<State>, t: nat, k: nat) {
    && k + 1 < |trace| && t in trace[k].threads && t in trace[k + 1].threads
    && trace[k + 1].threads[t].pc.MintSync? && trace[k].threads[t].home in trace[k].sources
    && Misses(trace[k].sources[trace[k].threads[t].home], trace[k].threads[t].pc, trace[k].world.now)
  }

  predicate Misses(src: SourceState, pc: Pc, now: int) {
    pc.ReadFile? || (pc.CheckFile? && ReadCache(src.source, Some(pc.content), now, src.decode).Miss?)
  }

  /** The caller is asking STS itself, or holds what STS answered. */
  predicate AsksSts(pc: Pc) {
    pc.MintSync? || (pc.Write? && !pc.background) || (pc.Returned? && pc.fromCache.None?)
  }

  lemma {:induction false} AskingMoves(
    t: nat, src: SourceState, pc: Pc, w: World, src': SourceState, pc': Pc, w': World)
    requires Moves(t, src, pc, w, src', pc', w') && AsksSts(pc')
    ensures AsksSts(pc) || (pc'.MintSync? && Misses(src, pc, w.now))
  {
    if pc.Write? {
      WritesMintNothing(pc.stage, pc.token, pc.background, w, pc', w');
    }
  }

  lemma {:induction false} AskingStep(s: State, s': State, t: nat)
    requires FlagsOk(s) && Step(s, s') && t in s'.threads && AsksSts(s'.threads[t].pc)
    requires s'.threads[t].home in s'.sources && s'.sources[s'.threads[t].home].source.cachePath != ""
    ensures t in s.threads && s.threads[t].home == s'.threads[t].home && s.threads[t].home in s.sources
    ensures s.sources[s.threads[t].home].source == s'.sources[s'.threads[t].home].source
    ensures AsksSts(s.threads[t].pc) ||
            (s'.threads[t].pc.MintSync? && Misses(s.sources[s.threads[t].home], s.threads[t].pc, s.world.now))
  {
    if u :| ThreadStep(s, s', u) {
      var home := s.threads[u].home;
      MovesFrame(u, s.sources[home], s.threads[u].pc, s.world, s'.sources[home], s'.threads[u].pc, s'.world);
      if u == t {
        AskingMoves(t, s.sources[home], s.threads[t].pc, s.world, s'.sources[home], s'.threads[t].pc, s'.world);
      }
    } else if u, u' :| SpawnStep(s, s', u, u') {
    }
  }

  /**
   Why a caller asks STS, in every run: with caching on, a caller that does, or did, found the cache
   file of no use at an earlier step, unreadable or a miss at that moment.
   */
  lemma {:induction false} StsAskedOnlyAfterMiss(trace: seq<State>, t: nat, i: nat)
    requires Run(trace) && i < |trace| && t in trace[i].threads && AsksSts(trace[i].threads[t].pc)
    requires trace[i].threads[t].home in trace[i].sources
    requires trace[i].sources[trace[i].threads[t].home].source.cachePath != ""
    ensures exists k :: 0 <= k < i && MissesAt(trace, t, k)
    decreases i
  {
    assert i > 0;
    AlwaysFlagsOk(trace, i - 1);
    assert StepAt(Steps(), trace, i);
    AskingStep(trace[i - 1], trace[i], t);
    if AsksSts(trace[i - 1].threads[t].pc) {
      StsAskedOnlyAfterMiss(trace, t, i - 1);
    } else {
      assert MissesAt(trace, t, i - 1);
    }
  }

  /** Nothing of a source without a cache file has to do with files, or refreshes. */
  ghost predicate FilelessOk(s: State) {
    forall t | t in s.threads && s.threads[t].home in s.sources
               && s.sources[s.threads[t].home].source.cachePath == "" ::
      s.threads[t].pc.MintSync? || (s.threads[t].pc.Returned? && s.threads[t].pc.fromCache.None?)
  }

  lemma {:induction false} FilelessStep(s: State, s': State)
    requires FlagsOk(s) && FilelessOk(s) && Step(s, s')
    ensures FilelessOk(s')
  {
    if u :| ThreadStep(s, s', u) {
      var home := s.threads[u].home;
      MovesFrame(u, s.sources[home], s.threads[u].pc, s.world, s'.sources[home], s'.threads[u].pc, s'.world);
    } else if u, u' :| SpawnStep(s, s', u, u') {
    }
  }

  /** With caching off, in every run, a caller does nothing but ask STS and return what it got. */
  lemma {:induction false} FilesLeftAlone(trace: seq<State>, t: nat, i: nat)
    requires Run(trace) && i < |trace| && t in trace[i].threads && trace[i].threads[t].home in trace[i].sources
    requires trace[i].sources[trace[i].threads[t].home].source.cachePath == ""
    ensures trace[i].threads[t].pc.MintSync? ||
            (trace[i].threads[t].pc.Returned? && trace[i].threads[t].pc.fromCache.None?)
  {
    forall s, s' | FlagsOk(s) && FilelessOk(s) && Steps()(s, s') ensures FlagsOk(s') && FilelessOk(s') {
      StepFlags(s, s');
      FilelessStep(s, s');
    }
    Invariance(Steps(), trace, s => FlagsOk(s) && FilelessOk(s), i);
  }

  /** At step `k` the caller finds the served token far enough from its expiry to leave it at that. */
  ghost predicate FreshAt(trace: seq<State>, t: nat, served: Served, k: nat) {
    && k + 1 < |trace| && t in trace[k].threads && trace[k].threads[t].pc == Compare(served)
    && trace[k].threads[t].home in trace[k].sources
    && served.exp - trace[k].world.now >= trace[k].sources[trace[k].threads[t].home].source.refreshBefore
  }

  /** At step `k` the caller asks for a refresh, and the flag of its source is set from then on. */
  ghost predicate ClaimsAt(trace: seq<State>, t: nat, served: Served, k: nat) {
    && k + 1 < |trace| && t in trace[k].threads && trace[k].threads[t].pc == TestFlag(served)
    && trace[k].threads[t].home in trace[k + 1].sources
    && trace[k + 1].sources[trace[k].threads[t].home].refreshing
  }

  predicate PastCompare(pc: Pc, served: Served) {
    || (pc.Unlock? && pc.served == served) || pc == Spawn(served)
    || (pc.Returned? && pc.fromCache == Some(served))
  }

  /** What comes before serving: a token fresh enough when compared, or a claimed refresh. */
  lemma {:induction false} PastCompareMoves(
    t: nat, src: SourceState, pc: Pc, w: World, src': SourceState, pc': Pc, w': World, served: Served)
    requires Moves(t, src, pc, w, src', pc', w') && PastCompare(pc', served)
    ensures || PastCompare(pc, served)
            || (pc == Compare(served) && served.exp - w.now >= src.source.refreshBefore)
            || (pc == TestFlag(served) && src'.refreshing)
  {
    if pc.Write? {
      WritesMintNothing(pc.stage, pc.token, pc.background, w, pc', w');
    }
  }

  lemma {:induction false} PastCompareStep(s: State, s': State, t: nat, served: Served)
    requires FlagsOk(s) && Step(s, s') && t in s'.threads && PastCompare(s'.threads[t].pc, served)
    ensures t in s.threads && s.threads[t].home in s.sources
    ensures || PastCompare(s.threads[t].pc, served)
            || (s.threads[t].pc == Compare(served)
                && served.exp - s.world.now >= s.sources[s.threads[t].home].source.refreshBefore)
            || (s.threads[t].pc == TestFlag(served) && s.threads[t].home in s'.sources
                && s'.sources[s.threads[t].home].refreshing)
  {
    if u :| ThreadStep(s, s', u) {
      if u == t {
        var home := s.threads[t].home;
        PastCompareMoves(t, s.sources[home], s.threads[t].pc, s.world,
                         s'.sources[home], s'.threads[t].pc, s'.world, served);
      }
    } else if u, u' :| SpawnStep(s, s', u, u') {
    }
  }

  /**
   A token near its expiry is never served without a refresh being outstanding, in every run: a
   caller that returned a cached token had found it fresh enough, or had claimed a refresh.
   */
  lemma {:induction false} ServedFreshOrRefreshed(trace: seq<State>, t: nat, served: Served, i: nat)
    requires Run(trace) && i < |trace| && t in trace[i].threads && PastCompare(trace[i].threads[t].pc, served)
    ensures exists k :: 0 <= k < i && (FreshAt(trace, t, served, k) || ClaimsAt(trace, t, served, k))
    decreases i
  {
    assert i > 0;
    AlwaysFlagsOk(trace, i - 1);
    assert StepAt(Steps(), trace, i);
    PastCompareStep(trace[i - 1], trace[i], t, served);
    if PastCompare(trace[i - 1].threads[t].pc, served) {
      ServedFreshOrRefreshed(trace, t, served, i - 1);
    } else {
      assert FreshAt(trace, t, served, i - 1) || ClaimsAt(trace, t, served, i - 1);
    }
  }
}
