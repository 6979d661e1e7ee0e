/**
 * Sessions of the manager: the scrollback log of each session, its replay on
 * reattach, the stdin-to-PTY copy that stops at the detach byte, and the
 * registry of sessions with its monotonic id counter. Processes and PTYs are
 * not modelled: whether a start succeeds, times out or fails, and whether a
 * process has exited, are inputs; closing a session sets `closed`.
 */
module Sessions {
  import opened Common
  import Config

  /** How many bytes of scrollback are replayed on reattach. */
  const ScrollbackReplaySize := 4096
  /** The ceiling of a session's scrollback: 1 MiB. */
  const MaxScrollbackSize := 1024 * 1024

  // ---------------------------------------------------------------------------
  // Scrollback
  // ---------------------------------------------------------------------------

  /** The scrollback kept of a log: its newest MaxScrollbackSize bytes. */
  function KeepNewest(log: seq<byte>): (r: seq<byte>)
    ensures |r| == if |log| <= MaxScrollbackSize then |log| else MaxScrollbackSize
    ensures r == log[|log| - |r|..]
  {
    if |log| > MaxScrollbackSize then log[|log| - MaxScrollbackSize..] else log
  }

  /** The last n bytes of a sequence are those of any longer sequence ending with it. */
  lemma SuffixOfSuffix(x: seq<byte>, y: seq<byte>, n: nat)
    requires |y| <= |x| && y == x[|x| - |y|..] && n <= |y|
    ensures y[|y| - n..] == x[|x| - n..]
  {
    calc {
      y[|y| - n..];
      x[|x| - |y|..][|y| - n..];
      x[|x| - n..];
    }
  }

  /** Truncating after every append keeps the same bytes as truncating once at the end. */
  lemma TruncateAppend(a: seq<byte>, b: seq<byte>)
    ensures KeepNewest(KeepNewest(a) + b) == KeepNewest(a + b)
  {
    var k := KeepNewest(a);
    if |a| > MaxScrollbackSize {
      var x := a + b;
      var y := k + b;
      assert y == x[|x| - |y|..] by {
        forall i | 0 <= i < |y|
          ensures y[i] == x[|x| - |y| + i]
        {
          if i < |k| {
            assert k[i] == a[|a| - |k| + i];
          }
        }
      }
      SuffixOfSuffix(x, y, MaxScrollbackSize);
    }
  }

  /** Capturing one more chunk extends the log the scrollback is the newest MiB of. */
  lemma CaptureStep(log: seq<byte>, chunks: seq<seq<byte>>, i: nat)
    requires i < |chunks|
    ensures KeepNewest(KeepNewest(log + Flatten(chunks[..i])) + chunks[i]) == KeepNewest(log + Flatten(chunks[..i + 1]))
  {
    TruncateAppend(log + Flatten(chunks[..i]), chunks[i]);
    assert chunks[..i + 1] == chunks[..i] + [chunks[i]];
    FlattenAppend(chunks[..i], [chunks[i]]);
    assert Flatten([chunks[i]]) == chunks[i];
    assert log + Flatten(chunks[..i]) + chunks[i] == log + Flatten(chunks[..i + 1]);
  }

  /** What a reattach replays: the last ScrollbackReplaySize bytes, or all of a shorter log. */
  function ReplayTail(log: seq<byte>): (r: seq<byte>)
    ensures |r| == if |log| <= ScrollbackReplaySize then |log| else ScrollbackReplaySize
    ensures r == log[|log| - |r|..]
  {
    if |log| > ScrollbackReplaySize then log[|log| - ScrollbackReplaySize..] else log
  }

  /** The 1 MiB truncation never changes what is replayed. */
  lemma ReplayIgnoresTruncation(log: seq<byte>)
    ensures ReplayTail(KeepNewest(log)) == ReplayTail(log)
  {
    var k := KeepNewest(log);
    if |log| > ScrollbackReplaySize {
      SuffixOfSuffix(log, k, ScrollbackReplaySize);
    }
  }

  // ---------------------------------------------------------------------------
  // Stdin to PTY, up to the detach byte
  // ---------------------------------------------------------------------------

  /** The detach keystroke is the byte 0. */
  const Sentinel: byte := 0

  /**
   * The chunks that reach the PTY: every chunk before the first one that
   * holds a 0 byte; that chunk and everything after it are never written.
   */
  function Forwarded(chunks: seq<seq<byte>>): (r: seq<seq<byte>>)
    ensures |r| <= |chunks| && r == chunks[..|r|]
    ensures forall i :: 0 <= i < |r| ==> Sentinel !in r[i]
    ensures |r| < |chunks| ==> Sentinel in chunks[|r|]
  {
    if chunks == [] || Sentinel in chunks[0] then [] else [chunks[0]] + Forwarded(chunks[1..])
  }

  /** The bytes written are exactly those of the chunks before the first chunk holding the sentinel. */
  lemma ForwardedBytes(chunks: seq<seq<byte>>, k: nat)
    requires k < |chunks| && Sentinel in chunks[k]
    requires forall i :: 0 <= i < k ==> Sentinel !in chunks[i]
    ensures Flatten(Forwarded(chunks)) == Flatten(chunks[..k])
  {
    var r := Forwarded(chunks);
    assert forall i :: 0 <= i < |r| ==> r[i] == chunks[i];
    assert |r| == k;
  }

  /** The copy loop of attachToSession from stdin to the PTY: scan each chunk for the sentinel, else write it. */
  method ForwardStdin(chunks: seq<seq<byte>>) returns (written: seq<seq<byte>>)
    ensures written == Forwarded(chunks)
  {
    written := [];
    var c := 0;
    while c < |chunks|
      invariant 0 <= c <= |chunks|
      invariant written == chunks[..c]
      invariant forall j :: 0 <= j < c ==> Sentinel !in chunks[j]
    {
      var buf := chunks[c];
      var i := 0;
      while i < |buf|
        invariant 0 <= i <= |buf|
        invariant forall k :: 0 <= k < i ==> buf[k] != Sentinel
      {
        if buf[i] == Sentinel {
          return;
        }
        i := i + 1;
      }
      written := written + [buf];
      c := c + 1;
    }
  }

  // ---------------------------------------------------------------------------
  // A session
  // ---------------------------------------------------------------------------

  /** What one attach did. */
  datatype AttachResult =
    | SessionEnded
    | RawModeFailed(replayed: seq<byte>)
    | Detached(replayed: seq<byte>, forwarded: seq<seq<byte>>)

  class Session {
    const id: int
    const alias: string
    /** The arguments `ssh` was started with. */
    const args: seq<string>
    /** Cleared by the exit monitor once the process has been waited for. */
    var active: bool
    /** The process has been killed and its PTY closed. */
    var closed: bool
    var scrollback: seq<byte>

    ghost predicate Valid()
      reads this`scrollback
    {
      id >= 1 && |scrollback| <= MaxScrollbackSize
    }

    constructor (id: int, alias: string, args: seq<string>)
      requires id >= 1
      ensures Valid()
      ensures this.id == id && this.alias == alias && this.args == args
      ensures active && !closed && scrollback == []
    {
      this.id := id;
      this.alias := alias;
      this.args := args;
      active := true;
      closed := false;
      scrollback := [];
    }

    /** One chunk read from the PTY: a non-empty one is appended, and the log keeps its newest MiB. */
    method AppendOutput(chunk: seq<byte>)
      requires Valid()
      modifies this`scrollback
      ensures Valid()
      ensures scrollback == KeepNewest(old(scrollback) + chunk)
    {
      if |chunk| > 0 {
        scrollback := scrollback + chunk;
        if |scrollback| > MaxScrollbackSize {
          scrollback := scrollback[|scrollback| - MaxScrollbackSize..];
        }
      } else {
        assert scrollback + chunk == scrollback;
      }
    }

    /** The PTY-to-stdout copy loop: every chunk read, in order, lands in the scrollback. */
    method Capture(chunks: seq<seq<byte>>)
      requires Valid()
      modifies this`scrollback
      ensures Valid()
      ensures scrollback == KeepNewest(old(scrollback) + Flatten(chunks))
    {
      ghost var log := scrollback;
      assert log + Flatten(chunks[..0]) == log;
      var i := 0;
      while i < |chunks|
        invariant 0 <= i <= |chunks|
        invariant Valid()
        invariant scrollback == KeepNewest(log + Flatten(chunks[..i]))
      {
        CaptureStep(log, chunks, i);
        AppendOutput(chunks[i]);
        i := i + 1;
      }
      assert chunks[..i] == chunks;
    }

    /** The exit monitor's update once the process has been waited for. */
    method Exited()
      modifies this`active
      ensures !active
    {
      active := false;
    }

    /** Kills the process, waits for it and closes the PTY. */
    method Close()
      modifies this`closed
      ensures closed
    {
      closed := true;
    }

    /** The bytes written back on attach: the newest ScrollbackReplaySize bytes of the scrollback. */
    method Replay() returns (replayed: seq<byte>)
      ensures replayed == ReplayTail(scrollback)
    {
      replayed := [];
      if |scrollback| > 0 {
        replayed := scrollback;
        if |replayed| > ScrollbackReplaySize {
          replayed := replayed[|replayed| - ScrollbackReplaySize..];
        }
      }
    }

    /**
     * attachToSession: an exited session is only reported; otherwise the
     * scrollback tail is replayed, and, once raw mode is on, stdin is copied
     * to the PTY up to the detach byte while PTY output is captured.
     */
    method Attach(exited: bool, rawModeFails: bool, stdin: seq<seq<byte>>, output: seq<seq<byte>>)
      returns (r: AttachResult)
      requires Valid()
      modifies this`scrollback
      ensures Valid()
      ensures exited ==> r == SessionEnded && scrollback == old(scrollback)
      ensures !exited && rawModeFails ==> r == RawModeFailed(ReplayTail(old(scrollback))) && scrollback == old(scrollback)
      ensures !exited && !rawModeFails ==>
        && r == Detached(ReplayTail(old(scrollback)), Forwarded(stdin))
        && scrollback == KeepNewest(old(scrollback) + Flatten(output))
    {
      if exited {
        return SessionEnded;
      }
      var replayed := Replay();
      if rawModeFails {
        return RawModeFailed(replayed);
      }
      var forwarded := ForwardStdin(stdin);
      Capture(output);
      r := Detached(replayed, forwarded);
    }
  }

  // ---------------------------------------------------------------------------
  // The registry
  // ---------------------------------------------------------------------------

  /** How starting `ssh` under a PTY ended. */
  datatype StartOutcome = Started | StartError | StartTimeout

  /** The position of the last true flag, or -1 when there is none. */
  function LastActive(flags: seq<bool>): (k: int)
    ensures -1 <= k < |flags|
    ensures k >= 0 ==> flags[k]
    ensures forall j :: k < j < |flags| ==> !flags[j]
  {
    if flags == [] then -1
    else if flags[|flags| - 1] then |flags| - 1
    else LastActive(flags[..|flags| - 1])
  }

  /** Removing the element at k: earlier positions keep their element, later ones move down by one. */
  lemma RemoveAtRenumbers<T>(s: seq<T>, k: nat)
    requires k < |s|
    ensures var r := s[..k] + s[k + 1..];
      && |r| == |s| - 1
      && (forall j :: 0 <= j < k ==> r[j] == s[j])
      && (forall j :: k <= j < |r| ==> r[j] == s[j + 1])
  {
  }

  function ActiveFlags(ss: seq<Session>): (r: seq<bool>)
    reads ss`active
    ensures |r| == |ss| && forall i {:trigger r[i]} :: 0 <= i < |ss| ==> r[i] == ss[i].active
  {
    if ss == [] then [] else [ss[0].active] + ActiveFlags(ss[1..])
  }

  /** The session closeActiveSession closes: the last active one, or null when none is active. */
  function LastActiveOf(ss: seq<Session>): Session?
    reads ss`active
  {
    var k := LastActive(ActiveFlags(ss));
    if k < 0 then null else ss[k]
  }

  /**
   * From the old state to this one, no session of `ss` changed its `active`
   * flag, none but `closedOne` changed `closed`, and none but `attachedOne`
   * changed its scrollback (null for no such session).
   */
  twostate predicate Kept(ss: seq<Session>, closedOne: Session?, attachedOne: Session?)
    reads ss
  {
    forall s :: s in ss ==>
      && s.active == old(s.active)
      && (s != closedOne ==> s.closed == old(s.closed))
      && (s != attachedOne ==> s.scrollback == old(s.scrollback))
  }

  /** The ids of a list of sessions, in list order. */
  function Ids(ss: seq<Session>): (r: seq<int>)
    ensures |r| == |ss| && forall i {:trigger r[i]} :: 0 <= i < |ss| ==> r[i] == ss[i].id
  {
    seq(|ss|, i requires 0 <= i < |ss| => ss[i].id)
  }

  /** Each element is below the next one. */
  predicate StrictlyIncreasing(xs: seq<int>)
  {
    forall i :: 0 < i < |xs| ==> xs[i - 1] < xs[i]
  }

  /** Every session is valid, ids strictly increase along the list and stay below `next`. */
  ghost predicate Numbered(ss: seq<Session>, next: int)
    reads set i | 0 <= i < |ss| :: ss[i]`scrollback
  {
    && (forall i :: 0 <= i < |ss| ==> ss[i].Valid() && ss[i].id < next)
    && StrictlyIncreasing(Ids(ss))
  }

  /** Splicing a session out keeps the numbering. */
  lemma RemoveKeepsNumbered(ss: seq<Session>, next: int, k: nat)
    requires k < |ss| && Numbered(ss, next)
    ensures Numbered(ss[..k] + ss[k + 1..], next)
  {
    var r := ss[..k] + ss[k + 1..];
    RemoveAtRenumbers(ss, k);
    var ids, rids := Ids(ss), Ids(r);
    forall i | 0 < i < |r|
      ensures rids[i - 1] < rids[i]
    {
      if i < k {
        assert rids[i - 1] == ids[i - 1] && rids[i] == ids[i];
      } else if i == k {
        assert rids[i - 1] == ids[k - 1] < ids[k] < ids[k + 1] == rids[i];
      } else {
        assert rids[i - 1] == ids[i] && rids[i] == ids[i + 1];
      }
    }
  }

  /** Appending a session whose id is `next` keeps the numbering below `next + 1`. */
  lemma AppendKeepsNumbered(ss: seq<Session>, next: int, s: Session)
    requires Numbered(ss, next) && s.Valid() && s.id == next
    ensures Numbered(ss + [s], next + 1)
  {
    var r := ss + [s];
    var ids, rids := Ids(ss), Ids(r);
    forall i | 0 < i < |r|
      ensures rids[i - 1] < rids[i]
    {
      assert rids[i - 1] == ids[i - 1];
      if i < |ss| {
        assert rids[i] == ids[i];
      }
    }
  }

  class Registry {
    /** The sessions in creation order; `!N` addresses position N-1. */
    var sessions: seq<Session>
    var nextID: int

    /** Ids are positive, strictly increasing in list order and all below nextID. */
    ghost predicate Valid()
      reads this, set i | 0 <= i < |sessions| :: sessions[i]`scrollback
    {
      nextID >= 1 && Numbered(sessions, nextID)
    }

    constructor ()
      ensures Valid() && sessions == [] && nextID == 1
    {
      sessions := [];
      nextID := 1;
    }

    /**
     * createSession: on a successful start the new session takes nextID,
     * is active with an empty scrollback, and is appended; a start error or
     * a timeout leaves the registry as it was.
     */
    method Create(host: Config.SSHHost, outcome: StartOutcome) returns (s: Session?)
      requires Valid()
      modifies this
      ensures Valid()
      ensures (s != null) == (outcome == Started)
      ensures s == null ==> sessions == old(sessions) && nextID == old(nextID)
      ensures s != null ==>
        && fresh(s)
        && sessions == old(sessions) + [s]
        && s.id == old(nextID) && nextID == old(nextID) + 1
        && s.alias == host.alias && s.args == Config.BuildSSHArgs(host)
        && s.active && !s.closed && s.scrollback == []
    {
      var args := Config.BuildSSHArgs(host);
      if outcome != Started {
        return null;
      }
      s := new Session(nextID, host.alias, args);
      AppendKeepsNumbered(sessions, nextID, s);
      nextID := nextID + 1;
      sessions := sessions + [s];
    }

    /**
     * closeActiveSession: scanning from the end, the last active session is
     * killed, closed and spliced out; the others keep their order. Returns
     * its position, or -1 when no session is active.
     */
    method CloseActive() returns (k: int)
      requires Valid()
      modifies this, sessions`closed
      ensures Valid()
      ensures nextID == old(nextID)
      ensures k == LastActive(old(ActiveFlags(sessions)))
      ensures k < 0 ==> sessions == old(sessions)
      ensures k >= 0 ==> sessions == old(sessions)[..k] + old(sessions)[k + 1..] && old(sessions)[k].closed
      ensures Kept(old(sessions), old(LastActiveOf(sessions)), null)
    {
      k := LastActiveIndex();
      assert Valid() && ActiveFlags(sessions) == old(ActiveFlags(sessions));
      if k >= 0 {
        CloseAt(k);
      }
    }

    /** Kills and closes the session at position k and splices it out of the list. */
    method CloseAt(k: nat)
      requires Valid() && k < |sessions|
      modifies this, (sessions[k] as Session)`closed
      ensures Valid() && nextID == old(nextID)
      ensures sessions == old(sessions)[..k] + old(sessions)[k + 1..]
      ensures old(sessions)[k].closed
    {
      sessions[k].Close();
      Splice(k);
    }

    /** Drops the session at position k; the others keep their order and ids. */
    method Splice(k: nat)
      requires Valid() && k < |sessions|
      modifies this
      ensures Valid() && nextID == old(nextID)
      ensures sessions == old(sessions)[..k] + old(sessions)[k + 1..]
    {
      RemoveKeepsNumbered(sessions, nextID, k);
      sessions := sessions[..k] + sessions[k + 1..];
    }

    /** The backward scan of closeActiveSession: the position of the last active session, or -1. */
    method LastActiveIndex() returns (k: int)
      ensures -1 <= k < |sessions|
      ensures k == LastActive(ActiveFlags(sessions))
    {
      ghost var flags := ActiveFlags(sessions);
      k := |sessions| - 1;
      while k >= 0 && !sessions[k].active
        invariant -1 <= k < |sessions|
        invariant forall j :: k < j < |sessions| ==> !flags[j]
      {
        k := k - 1;
      }
      assert k >= 0 ==> flags[k];
    }

    /** closeAllSessions: every session is killed and closed; the list itself is left as it is. */
    method CloseAll()
      requires Valid()
      modifies sessions`closed
      ensures Valid()
      ensures forall i :: 0 <= i < |sessions| ==> sessions[i].closed
      ensures forall s :: s in sessions ==> s.active == old(s.active) && s.scrollback == old(s.scrollback)
    {
      var i := 0;
      while i < |sessions|
        invariant 0 <= i <= |sessions|
        invariant forall j :: 0 <= j < i ==> sessions[j].closed
        invariant forall s :: s in sessions ==> s.active == old(s.active) && s.scrollback == old(s.scrollback)
      {
        sessions[i].Close();
        i := i + 1;
      }
    }

    /** The exit monitor: once the process has been waited for, the session is no longer active. */
    method ProcessExited(k: nat)
      requires Valid() && k < |sessions|
      modifies (sessions[k] as Session)`active
      ensures Valid()
      ensures !sessions[k].active
    {
      sessions[k].Exited();
    }
  }
}
