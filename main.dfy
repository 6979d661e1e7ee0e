/**
 * The main menu loop: each typed line is trimmed and dispatched to quit
 * (close every session and stop), close the last active session, view a
 * session's scrollback, resume a session (`!N`) or connect to a host (`N`).
 * Numbers are 1-based and checked against the current list lengths; a line
 * that matches nothing does nothing.
 */
module Menu {
  import opened Common
  import opened Text
  import Config
  import Sessions
  import Ui

  /** What one menu line asks for; indices are 0-based list positions. */
  datatype Action =
    | QuitAll
    | CloseLast
    | View(index: int)
    | Resume(index: int)
    | Connect(index: int)
    | NoAction

  /** `!N` read with `scan` for the number after the `!`: the session position N-1, when in range. */
  function SessionRef(t: string, nSessions: nat, scan: string -> Option<int>): (r: Option<int>)
    ensures r.Some? <==> HasPrefix(t, "!") && scan(t[1..]).Some? && 0 < scan(t[1..]).value <= nSessions
    ensures r.Some? ==> 0 <= r.value < nSessions && scan(t[1..]) == Some(r.value + 1)
  {
    if HasPrefix(t, "!") then
      match scan(t[1..])
      case Some(n) => if 0 < n <= nSessions then Some(n - 1) else None
      case None => None
    else None
  }

  /** A line that connects: not `q`, `x`, `v` or `!N`, and a number N with 1 <= N <= the number of hosts. */
  predicate ConnectLine(input: string, nHosts: nat, scan: string -> Option<int>)
  {
    var t := TrimSpace(input);
    t != "q" && t != "x" && t != "v" && !HasPrefix(t, "!") && scan(t).Some? && 0 < scan(t).value <= nHosts
  }

  /**
   * The dispatch of one menu line. `followUp` is the line read after `v`
   * (only when there are sessions); `scan` stands for reading an integer
   * with `%d`.
   */
  function Dispatch(input: string, followUp: string, nSessions: nat, nHosts: nat, scan: string -> Option<int>): (a: Action)
    ensures a.View? ==>
      && TrimSpace(input) == "v" && 0 <= a.index < nSessions
      && SessionRef(TrimSpace(followUp), nSessions, scan) == Some(a.index)
    ensures a.View? <==> TrimSpace(input) == "v" && SessionRef(TrimSpace(followUp), nSessions, scan).Some?
    ensures a.Resume? ==> 0 <= a.index < nSessions && SessionRef(TrimSpace(input), nSessions, scan) == Some(a.index)
    ensures a.Connect? ==> 0 <= a.index < nHosts && scan(TrimSpace(input)) == Some(a.index + 1)
    ensures a == QuitAll <==> TrimSpace(input) == "q"
    ensures a == CloseLast <==> TrimSpace(input) == "x"
    ensures a.Connect? <==> ConnectLine(input, nHosts, scan)
  {
    var t := TrimSpace(input);
    if t == "q" then QuitAll
    else if t == "x" then CloseLast
    else if t == "v" then
      if nSessions > 0 then
        match SessionRef(TrimSpace(followUp), nSessions, scan)
        case Some(i) => View(i)
        case None => NoAction
      else NoAction
    else if HasPrefix(t, "!") then
      match SessionRef(t, nSessions, scan)
      case Some(i) => Resume(i)
      case None => NoAction
    else
      match scan(t)
      case Some(n) => if 0 < n <= nHosts then Connect(n - 1) else NoAction
      case None => NoAction
  }

  /** `!N` resumes session N exactly when 1 <= N <= the number of sessions, and does nothing otherwise. */
  lemma ResumeInRange(input: string, followUp: string, nSessions: nat, nHosts: nat, scan: string -> Option<int>, n: int)
    requires HasPrefix(TrimSpace(input), "!") && scan(TrimSpace(input)[1..]) == Some(n)
    ensures 0 < n <= nSessions ==> Dispatch(input, followUp, nSessions, nHosts, scan) == Resume(n - 1)
    ensures !(0 < n <= nSessions) ==> Dispatch(input, followUp, nSessions, nHosts, scan) == NoAction
  {
    var t := TrimSpace(input);
    assert t != "q" && t != "x" && t != "v" by {
      assert t[0] == '!';
    }
  }

  /** A bare number N connects to host N exactly when 1 <= N <= the number of hosts. */
  lemma ConnectInRange(input: string, followUp: string, nSessions: nat, nHosts: nat, scan: string -> Option<int>, n: int)
    requires var t := TrimSpace(input);
      t != "q" && t != "x" && t != "v" && !HasPrefix(t, "!") && scan(t) == Some(n)
    ensures 0 < n <= nHosts ==> Dispatch(input, followUp, nSessions, nHosts, scan) == Connect(n - 1)
    ensures !(0 < n <= nHosts) ==> Dispatch(input, followUp, nSessions, nHosts, scan) == NoAction
  {
  }

  /** With no sessions, neither `v` nor `!N` does anything. */
  lemma NoSessionsNoSessionAction(input: string, followUp: string, nHosts: nat, scan: string -> Option<int>)
    ensures var a := Dispatch(input, followUp, 0, nHosts, scan);
      !a.View? && !a.Resume?
  {
  }

  /** `v` then `!N` views session N exactly when 1 <= N <= the number of sessions. */
  lemma ViewInRange(input: string, followUp: string, nSessions: nat, nHosts: nat, scan: string -> Option<int>, n: int)
    requires TrimSpace(input) == "v"
    requires HasPrefix(TrimSpace(followUp), "!") && scan(TrimSpace(followUp)[1..]) == Some(n)
    ensures 0 < n <= nSessions ==> Dispatch(input, followUp, nSessions, nHosts, scan) == View(n - 1)
    ensures !(0 < n <= nSessions) ==> Dispatch(input, followUp, nSessions, nHosts, scan) == NoAction
  {
  }

  /**
   * What the world answers during one menu step: the typed line, the line
   * after `v`, and for a connect or resume, how starting `ssh` ends, whether
   * the process has exited, whether raw mode fails, the stdin chunks, the
   * PTY output chunks and the pager's input lines.
   */
  datatype MenuStep = MenuStep(
    input: string,
    followUp: string,
    start: Sessions.StartOutcome,
    exited: bool,
    rawModeFails: bool,
    stdin: seq<seq<byte>>,
    output: seq<seq<byte>>,
    pagerInputs: seq<string>)

  /** The line that ends the menu loop: `q`, ignoring surrounding white space. */
  predicate IsQuit(input: string)
  {
    TrimSpace(input) == "q"
  }

  /** The position of the first `q` line among the steps, or the number of steps when there is none. */
  function QuitAt(steps: seq<MenuStep>): (n: nat)
    ensures n <= |steps|
    ensures forall k :: 0 <= k < n ==> !IsQuit(steps[k].input)
    ensures n < |steps| ==> IsQuit(steps[n].input)
  {
    QuitFrom(steps, 0)
  }

  /** The position of the first `q` line at or after position `i`. */
  function QuitFrom(steps: seq<MenuStep>, i: nat): (n: nat)
    requires i <= |steps|
    ensures i <= n <= |steps|
    ensures forall k :: i <= k < n ==> !IsQuit(steps[k].input)
    ensures n < |steps| ==> IsQuit(steps[n].input)
    decreases |steps| - i
  {
    if i == |steps| then i
    else if IsQuit(steps[i].input) then i
    else
      var n := QuitFrom(steps, i + 1);
      assert !IsQuit(steps[i].input);
      n
  }

  /** A step that creates a session: a connect line whose `ssh` starts. */
  predicate StartsSession(st: MenuStep, nHosts: nat, scan: string -> Option<int>)
  {
    ConnectLine(st.input, nHosts, scan) && st.start == Sessions.Started
  }

  /** How many of the first k steps create a session. */
  function StartedCount(steps: seq<MenuStep>, k: nat, nHosts: nat, scan: string -> Option<int>): (n: nat)
    requires k <= |steps|
    ensures n <= k
  {
    if k == 0 then 0
    else StartedCount(steps, k - 1, nHosts, scan) + if StartsSession(steps[k - 1], nHosts, scan) then 1 else 0
  }

  /** The scrollback a session is left with after one attach that starts from `log`. */
  function Attached(log: seq<byte>, st: MenuStep): seq<byte>
  {
    if st.exited || st.rawModeFails then log else Sessions.KeepNewest(log + Flatten(st.output))
  }

  /**
   * What an action does to the session list and `nextID`: `x` splices out
   * the last active session (nothing when none is active), a connect whose
   * start succeeds appends one session and takes one id, and every other
   * action leaves both as they were.
   */
  predicate ListEffect(action: Action, start: Sessions.StartOutcome, flags: seq<bool>,
                       before: seq<Sessions.Session>, next0: int, after: seq<Sessions.Session>, next1: int)
    requires |flags| == |before|
  {
    match action
    case CloseLast =>
      var k := Sessions.LastActive(flags);
      next1 == next0 && after == if k < 0 then before else before[..k] + before[k + 1..]
    case Connect(_) => ConnectListEffect(start, before, next0, after, next1)
    case _ => next1 == next0 && after == before
  }

  /** A connect on the list: when `ssh` starts, one session is appended and one id taken; otherwise nothing changes. */
  predicate ConnectListEffect(start: Sessions.StartOutcome, before: seq<Sessions.Session>, next0: int,
                              after: seq<Sessions.Session>, next1: int)
  {
    if start == Sessions.Started then next1 == next0 + 1 && |after| == |before| + 1 && after == before + [after[|before|]]
    else next1 == next0 && after == before
  }

  /** A session as the menu's list operations see it: its id and whether it is still active. */
  datatype SessionView = SessionView(id: int, active: bool)

  /** The views of a list of sessions, in list order. */
  function Views(ss: seq<Sessions.Session>): (r: seq<SessionView>)
    reads ss`active
    ensures |r| == |ss| && forall i {:trigger r[i]} :: 0 <= i < |ss| ==> r[i] == SessionView(ss[i].id, ss[i].active)
  {
    if ss == [] then [] else [SessionView(ss[0].id, ss[0].active)] + Views(ss[1..])
  }

  /** The active flags of a list of views. */
  function ActiveOf(vs: seq<SessionView>): (r: seq<bool>)
    ensures |r| == |vs| && forall i {:trigger r[i]} :: 0 <= i < |vs| ==> r[i] == vs[i].active
  {
    seq(|vs|, i requires 0 <= i < |vs| => vs[i].active)
  }

  /** `x` on the views: the last active session is removed, the others keep their order. */
  function RemoveLastActive(vs: seq<SessionView>): seq<SessionView>
  {
    var k := Sessions.LastActive(ActiveOf(vs));
    if k < 0 then vs else vs[..k] + vs[k + 1..]
  }

  /**
   * What an action does to the views and `nextID`: `x` removes the last
   * active session, a connect whose `ssh` starts appends an active session
   * with the next id, and nothing else changes the list.
   */
  function Effect(action: Action, start: Sessions.StartOutcome, vs: seq<SessionView>, next: int): (seq<SessionView>, int)
  {
    match action
    case CloseLast => (RemoveLastActive(vs), next)
    case Connect(_) => ConnectEffect(start, vs, next)
    case _ => (vs, next)
  }

  /** A connect on the views: when `ssh` starts, an active session with the next id is appended and the id is taken. */
  function ConnectEffect(start: Sessions.StartOutcome, vs: seq<SessionView>, next: int): (seq<SessionView>, int)
  {
    if start == Sessions.Started then (vs + [SessionView(next, true)], next + 1) else (vs, next)
  }

  /** The first k lines, dispatched against the current list and run in order on the views. */
  function Run(steps: seq<MenuStep>, k: nat, nHosts: nat, scan: string -> Option<int>, vs: seq<SessionView>, next: int): (r: (seq<SessionView>, int))
    requires k <= |steps|
  {
    if k == 0 then (vs, next)
    else
      var (vs', next') := Run(steps, k - 1, nHosts, scan, vs, next);
      Effect(Dispatch(steps[k - 1].input, steps[k - 1].followUp, |vs'|, nHosts, scan), steps[k - 1].start, vs', next')
  }

  /**
   * Over a run, `nextID` grows by exactly the number of lines that start a
   * session, and the list by at most that many.
   */
  lemma {:induction false} RunCounts(steps: seq<MenuStep>, k: nat, nHosts: nat, scan: string -> Option<int>, vs: seq<SessionView>, next: int)
    requires k <= |steps|
    ensures Run(steps, k, nHosts, scan, vs, next).1 == next + StartedCount(steps, k, nHosts, scan)
    ensures |Run(steps, k, nHosts, scan, vs, next).0| <= |vs| + StartedCount(steps, k, nHosts, scan)
  {
    if k > 0 {
      RunCounts(steps, k - 1, nHosts, scan, vs, next);
      var r := Run(steps, k - 1, nHosts, scan, vs, next);
      var st := steps[k - 1];
      var a := Dispatch(st.input, st.followUp, |r.0|, nHosts, scan);
      assert Run(steps, k, nHosts, scan, vs, next) == Effect(a, st.start, r.0, r.1);
      EffectCounts(a, st.start, r.0, r.1);
      assert a.Connect? <==> ConnectLine(st.input, nHosts, scan);
    }
  }

  /** One action takes one id and adds at most one session when it is a connect whose `ssh` starts, and none otherwise. */
  lemma EffectCounts(a: Action, start: Sessions.StartOutcome, vs: seq<SessionView>, next: int)
    ensures var started := if a.Connect? && start == Sessions.Started then 1 else 0;
      && Effect(a, start, vs, next).1 == next + started
      && |Effect(a, start, vs, next).0| <= |vs| + started
  {
    if a == CloseLast {
      var k := Sessions.LastActive(ActiveOf(vs));
      if k >= 0 {
        Sessions.RemoveAtRenumbers(vs, k);
      }
    }
  }

  /** The active flags of the views are the sessions' active flags. */
  lemma ActiveOfViews(ss: seq<Sessions.Session>)
    ensures ActiveOf(Views(ss)) == Sessions.ActiveFlags(ss)
  {
    var l, r := ActiveOf(Views(ss)), Sessions.ActiveFlags(ss);
    assert |l| == |r|;
    forall j | 0 <= j < |l|
      ensures l[j] == r[j]
    {
    }
  }

  /** Views depend only on ids and active flags: keeping every flag keeps the views. */
  twostate lemma ViewsKept(ss: seq<Sessions.Session>)
    requires forall s :: s in ss ==> s.active == old(s.active)
    ensures Views(ss) == old(Views(ss))
  {
    var l, r := Views(ss), old(Views(ss));
    assert |l| == |r|;
    forall j | 0 <= j < |l|
      ensures l[j] == r[j]
    {
      assert ss[j] in ss;
    }
  }

  /** Starting a session appends its view with the next id; a failed start leaves the views as they were. */
  lemma ConnectViews(start: Sessions.StartOutcome, before: seq<Sessions.Session>, next0: int,
                     after: seq<Sessions.Session>, next1: int)
    requires ConnectListEffect(start, before, next0, after, next1)
    requires start == Sessions.Started ==> after[|before|].id == next0 && after[|before|].active
    ensures (Views(after), next1) == ConnectEffect(start, Views(before), next0)
  {
    if start == Sessions.Started {
      ViewsAppend(before, after[|before|]);
    }
  }

  /** Removing a session removes its view. */
  lemma ViewsRemoveAt(ss: seq<Sessions.Session>, k: nat)
    requires k < |ss|
    ensures Views(ss[..k] + ss[k + 1..]) == Views(ss)[..k] + Views(ss)[k + 1..]
  {
    var vs := Views(ss);
    Sessions.RemoveAtRenumbers(ss, k);
    Sessions.RemoveAtRenumbers(vs, k);
    var l, r := Views(ss[..k] + ss[k + 1..]), vs[..k] + vs[k + 1..];
    assert |l| == |r|;
    forall j | 0 <= j < |l|
      ensures l[j] == r[j]
    {
      if j >= k {
        assert l[j] == vs[j + 1];
      }
    }
  }

  /** Appending a session appends its view. */
  lemma ViewsAppend(ss: seq<Sessions.Session>, s: Sessions.Session)
    ensures Views(ss + [s]) == Views(ss) + [SessionView(s.id, s.active)]
  {
    var l, r := Views(ss + [s]), Views(ss) + [SessionView(s.id, s.active)];
    assert |l| == |r|;
    forall j | 0 <= j < |l|
      ensures l[j] == r[j]
    {
      if j < |ss| {
        assert (ss + [s])[j] == ss[j];
      }
    }
  }

  /** Splicing out the last active session, seen through the views, is `RemoveLastActive`. */
  lemma CloseLastViews(ss: seq<Sessions.Session>)
    ensures var k := Sessions.LastActive(Sessions.ActiveFlags(ss));
      Views(if k < 0 then ss else ss[..k] + ss[k + 1..]) == RemoveLastActive(Views(ss))
  {
    ActiveOfViews(ss);
    var k := Sessions.LastActive(Sessions.ActiveFlags(ss));
    if k >= 0 {
      ViewsRemoveAt(ss, k);
    }
  }

  /**
   * The main loop over the given steps: dispatch each line and perform the
   * action, until `q` (which closes every session) or the end of the steps.
   * Returns whether the loop quit and how many steps it used: every step up
   * to and including the first `q`, or all of them when there is none. The
   * list it ends with, seen as ids and active flags, and `nextID` are those
   * of `Run` over the lines before the first `q`.
   */
  method CommandLoop(reg: Sessions.Registry, hosts: seq<Config.SSHHost>, steps: seq<MenuStep>, scan: string -> Option<int>)
    returns (quit: bool, used: nat)
    requires reg.Valid()
    modifies reg, reg.sessions`closed, reg.sessions`scrollback
    ensures reg.Valid()
    ensures quit <==> QuitAt(steps) < |steps|
    ensures used == if quit then QuitAt(steps) + 1 else |steps|
    ensures quit ==> forall i :: 0 <= i < |reg.sessions| ==> reg.sessions[i].closed
    ensures (Views(reg.sessions), reg.nextID) == Run(steps, QuitAt(steps), |hosts|, scan, old(Views(reg.sessions)), old(reg.nextID))
    ensures reg.nextID == old(reg.nextID) + StartedCount(steps, QuitAt(steps), |hosts|, scan)
    ensures |reg.sessions| <= old(|reg.sessions|) + StartedCount(steps, QuitAt(steps), |hosts|, scan)
    ensures forall i :: 0 <= i < |reg.sessions| ==> reg.sessions[i] in old(reg.sessions) || fresh(reg.sessions[i])
    ensures forall s :: s in old(reg.sessions) ==> s.active == old(s.active)
  {
    ghost var n := QuitAt(steps);
    ghost var done := 0;
    ghost var views0, next0 := Views(reg.sessions), reg.nextID;
    used := 0;
    quit := false;
    while used < |steps| && !quit
      invariant reg.Valid()
      invariant !quit ==> used <= n && done == used
      invariant quit ==> n < |steps| && used == n + 1 && done == n
      invariant quit ==> forall i :: 0 <= i < |reg.sessions| ==> reg.sessions[i].closed
      invariant forall s :: s in reg.sessions ==> s in old(reg.sessions) || fresh(s)
      invariant (Views(reg.sessions), reg.nextID) == Run(steps, done, |hosts|, scan, views0, next0)
    {
      var action;
      assert forall i :: 0 <= i < |reg.sessions| ==> reg.sessions[i] in old(reg.sessions) || fresh(reg.sessions[i]);
      quit, action := MenuTurn(reg, hosts, steps[used], scan);
      assert used == n ==> quit;
      if !quit {
        done := done + 1;
      }
      used := used + 1;
    }
    RunCounts(steps, done, |hosts|, scan, views0, next0);
  }

  /**
   * One pass of the loop: quit closes every session; any other line is
   * dispatched against the list as it stands and performed. Returns whether
   * the line was `q`, and the action it was dispatched to.
   */
  method MenuTurn(reg: Sessions.Registry, hosts: seq<Config.SSHHost>, st: MenuStep, scan: string -> Option<int>)
    returns (quitNow: bool, action: Action)
    requires reg.Valid()
    modifies reg, reg.sessions`closed, reg.sessions`scrollback
    ensures reg.Valid()
    ensures quitNow <==> IsQuit(st.input)
    ensures action == old(Dispatch(st.input, st.followUp, |reg.sessions|, |hosts|, scan))
    ensures quitNow ==> reg.sessions == old(reg.sessions) && reg.nextID == old(reg.nextID)
    ensures quitNow ==> forall i :: 0 <= i < |reg.sessions| ==> reg.sessions[i].closed
    ensures quitNow ==> forall s :: s in old(reg.sessions) ==> s.scrollback == old(s.scrollback)
    ensures !quitNow ==> ListEffect(action, st.start, old(Sessions.ActiveFlags(reg.sessions)), old(reg.sessions), old(reg.nextID), reg.sessions, reg.nextID)
    ensures (Views(reg.sessions), reg.nextID) == Effect(action, st.start, old(Views(reg.sessions)), old(reg.nextID))
    ensures action.Resume? ==> old(reg.sessions)[action.index].scrollback == Attached(old(reg.sessions[action.index].scrollback), st)
    ensures action.Connect? && st.start == Sessions.Started ==>
      var s := reg.sessions[|reg.sessions| - 1];
      && fresh(s) && s.id == old(reg.nextID)
      && s.alias == hosts[action.index].alias && s.args == Config.BuildSSHArgs(hosts[action.index])
      && s.active && !s.closed && s.scrollback == Attached([], st)
    ensures forall s :: s in reg.sessions ==> s in old(reg.sessions) || fresh(s)
    ensures forall s :: s in old(reg.sessions) ==> s.active == old(s.active)
    ensures !quitNow ==> Sessions.Kept(old(reg.sessions),
      if action.CloseLast? then old(Sessions.LastActiveOf(reg.sessions)) else null,
      if action.Resume? then old(reg.sessions)[action.index] else null)
  {
    action := Dispatch(st.input, st.followUp, |reg.sessions|, |hosts|, scan);
    quitNow := IsQuit(st.input);
    if quitNow {
      reg.CloseAll();
      ViewsKept(reg.sessions);
    } else {
      Perform(reg, hosts, st, action);
    }
  }

  /**
   * Carries out one action other than quitting: its effect on the list and
   * `nextID`, the resumed session's scrollback, and the new session of a
   * started connect; viewing a scrollback or an empty line changes no
   * scrollback.
   */
  method Perform(reg: Sessions.Registry, hosts: seq<Config.SSHHost>, st: MenuStep, action: Action)
    requires reg.Valid() && action != QuitAll
    requires action.View? || action.Resume? ==> 0 <= action.index < |reg.sessions|
    requires action.Connect? ==> 0 <= action.index < |hosts|
    modifies reg, reg.sessions`closed, reg.sessions`scrollback
    ensures reg.Valid()
    ensures ListEffect(action, st.start, old(Sessions.ActiveFlags(reg.sessions)), old(reg.sessions), old(reg.nextID), reg.sessions, reg.nextID)
    ensures action.Resume? ==>
      old(reg.sessions)[action.index].scrollback == Attached(old(reg.sessions[action.index].scrollback), st)
    ensures action.Connect? && st.start == Sessions.Started ==>
      var s := reg.sessions[|reg.sessions| - 1];
      && fresh(s) && s.id == old(reg.nextID)
      && s.alias == hosts[action.index].alias && s.args == Config.BuildSSHArgs(hosts[action.index])
      && s.active && !s.closed && s.scrollback == Attached([], st)
    ensures (Views(reg.sessions), reg.nextID) == Effect(action, st.start, old(Views(reg.sessions)), old(reg.nextID))
    ensures forall s :: s in reg.sessions ==> s in old(reg.sessions) || fresh(s)
    ensures Sessions.Kept(old(reg.sessions),
      if action.CloseLast? then old(Sessions.LastActiveOf(reg.sessions)) else null,
      if action.Resume? then old(reg.sessions)[action.index] else null)
  {
    match action {
      case CloseLast =>
        var _ := CloseLastActive(reg);
      case View(i) =>
        var _, _ := Ui.ViewScrollback(reg.sessions[i].scrollback, st.pagerInputs);
      case Resume(i) =>
        AttachAt(reg, i, st);
      case Connect(i) =>
        var _ := ConnectTo(reg, hosts[i], st);
      case NoAction =>
    }
  }

  /**
   * `x`: the last active session is killed, closed and spliced out; the
   * others keep their order, and nothing changes when none is active.
   */
  method CloseLastActive(reg: Sessions.Registry) returns (k: int)
    requires reg.Valid()
    modifies reg, reg.sessions`closed
    ensures reg.Valid() && reg.nextID == old(reg.nextID)
    ensures k == Sessions.LastActive(old(Sessions.ActiveFlags(reg.sessions)))
    ensures reg.sessions == if k < 0 then old(reg.sessions) else old(reg.sessions)[..k] + old(reg.sessions)[k + 1..]
    ensures k >= 0 ==> old(reg.sessions)[k].closed
    ensures Sessions.Kept(old(reg.sessions), old(Sessions.LastActiveOf(reg.sessions)), null)
    ensures Views(reg.sessions) == RemoveLastActive(old(Views(reg.sessions)))
    ensures forall s :: s in reg.sessions ==> s in old(reg.sessions)
  {
    ghost var before := reg.sessions;
    CloseLastViews(before);
    k := reg.CloseActive();
    if k >= 0 {
      Sessions.RemoveAtRenumbers(before, k);
    }
    ViewsKept(reg.sessions);
  }

  /**
   * A bare number: createSession for the host. A start error or timeout
   * leaves the registry as it was; a start appends one new session with the
   * next id, which is attached at once.
   */
  method ConnectTo(reg: Sessions.Registry, host: Config.SSHHost, st: MenuStep) returns (s: Sessions.Session?)
    requires reg.Valid()
    modifies reg
    ensures reg.Valid()
    ensures (s != null) <==> st.start == Sessions.Started
    ensures s != null ==>
      && fresh(s) && reg.sessions == old(reg.sessions) + [s] && s.id == old(reg.nextID)
      && s.alias == host.alias && s.args == Config.BuildSSHArgs(host)
      && s.active && !s.closed && s.scrollback == Attached([], st)
    ensures Sessions.Kept(old(reg.sessions), null, null)
    ensures ConnectListEffect(st.start, old(reg.sessions), old(reg.nextID), reg.sessions, reg.nextID)
    ensures (Views(reg.sessions), reg.nextID) == ConnectEffect(st.start, old(Views(reg.sessions)), old(reg.nextID))
    ensures forall x :: x in reg.sessions ==> x in old(reg.sessions) || fresh(x)
  {
    ghost var before, next0 := reg.sessions, reg.nextID;
    s := reg.Create(host, st.start);
    if s != null {
      AttachAt(reg, |reg.sessions| - 1, st);
    }
    ViewsKept(before);
    ConnectViews(st.start, before, next0, reg.sessions, reg.nextID);
  }

  /** `!N`: attaching the session at position i; only that session's scrollback changes. */
  method AttachAt(reg: Sessions.Registry, i: nat, st: MenuStep)
    requires reg.Valid() && i < |reg.sessions|
    modifies (reg.sessions[i] as Sessions.Session)`scrollback
    ensures reg.Valid()
    ensures reg.sessions[i].scrollback == Attached(old(reg.sessions[i].scrollback), st)
    ensures Sessions.Kept(old(reg.sessions), null, old(reg.sessions)[i])
    ensures Views(reg.sessions) == old(Views(reg.sessions))
  {
    var s := reg.sessions[i];
    var _ := s.Attach(st.exited, st.rawModeFails, st.stdin, st.output);
    assert forall j :: 0 <= j < |reg.sessions| ==> reg.sessions[j].Valid();
    ViewsKept(reg.sessions);
  }
}
