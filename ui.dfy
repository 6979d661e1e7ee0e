/**
 * The two interactive state machines of the user interface: the scrollback
 * pager (page down and up, top, bottom, case-insensitive search and moving
 * between matches) and the multi-host selection (toggle, all, clear, done,
 * cancel). Screen drawing is not modelled; each machine is driven by the
 * sequence of lines the user types.
 */
module Ui {
  import opened Common
  import opened Text
  import Config

  /** Lines per pager page. */
  const PageSize := 20

  // ---------------------------------------------------------------------------
  // Lines and matches
  // ---------------------------------------------------------------------------

  /** A byte log read as text, one character per byte. */
  function AsText(b: seq<byte>): (s: string)
    ensures |s| == |b|
    ensures forall i :: 0 <= i < |b| ==> s[i] as int == b[i]
  {
    seq(|b|, i requires 0 <= i < |b| => b[i] as char)
  }

  /** The pager's lines: the scrollback split on newlines. */
  function Lines(sb: seq<byte>): (lines: seq<string>)
    ensures |lines| >= 1
    ensures forall i :: 0 <= i < |lines| ==> '\n' !in lines[i]
  {
    Split(AsText(sb), '\n')
  }

  /** Joining the lines with newlines gives back the scrollback. */
  lemma LinesRejoin(sb: seq<byte>)
    ensures Join(Lines(sb), "\n") == AsText(sb)
  {
    SplitJoin(AsText(sb), '\n');
  }

  /** A line matches a search term when it contains it, ignoring case. */
  predicate LineMatches(line: string, term: string)
  {
    Contains(ToLower(line), ToLower(term))
  }

  /** The search results: the positions of the matching lines, in ascending order. */
  function Matches(lines: seq<string>, term: string): (r: seq<int>)
    ensures forall k :: 0 <= k < |r| ==> 0 <= r[k] < |lines|
    ensures forall j, k :: 0 <= j < k < |r| ==> r[j] < r[k]
    ensures forall i :: 0 <= i < |lines| ==> (i in r <==> LineMatches(lines[i], term))
    decreases |lines|
  {
    if lines == [] then []
    else
      var last := |lines| - 1;
      var prior := Matches(lines[..last], term);
      assert forall i :: 0 <= i < last ==> lines[..last][i] == lines[i];
      if LineMatches(lines[last], term) then prior + [last] else prior
  }

  /** The search loop of the pager: scan every line and collect the matching positions. */
  method FindMatches(lines: seq<string>, term: string) returns (results: seq<int>)
    ensures results == Matches(lines, term)
  {
    results := [];
    var i := 0;
    while i < |lines|
      invariant 0 <= i <= |lines|
      invariant results == Matches(lines[..i], term)
    {
      assert lines[..i + 1][..i] == lines[..i];
      if LineMatches(lines[i], term) {
        results := results + [i];
      }
      i := i + 1;
    }
    assert lines[..i] == lines;
  }

  /** Go's `%` on ints: the remainder has the sign of the dividend. */
  function GoRem(a: int, b: int): (r: int)
    requires b > 0
    ensures -b < r < b
    ensures a >= 0 ==> r >= 0
    ensures a < 0 ==> r <= 0
    ensures 0 <= a < b ==> r == a
    ensures b <= a < 2 * b ==> r == a - b
  {
    if a >= 0 then a % b else -((-a) % b)
  }

  /** Go's remainder differs from the dividend by a multiple of the divisor. */
  lemma GoRemCongruent(a: int, b: int)
    requires b > 0
    ensures (a - GoRem(a, b)) % b == 0
  {
    if a >= 0 {
      var q := a / b;
      assert a - GoRem(a, b) == b * q;
      MultipleMod(b, q);
    } else {
      var q := (-a) / b;
      assert -a == b * q + (-a) % b;
      assert a - GoRem(a, b) == b * (-q);
      MultipleMod(b, -q);
    }
  }

  /** A positive multiple of b is at least b. */
  lemma {:induction false} MulAtLeast(b: int, k: int)
    requires b > 0 && k >= 1
    ensures b * k >= b
    decreases k
  {
    if k > 1 {
      MulAtLeast(b, k - 1);
      assert b * k == b * (k - 1) + b;
    }
  }

  /** A multiple of b leaves no remainder. */
  lemma MultipleMod(b: int, q: int)
    requires b > 0
    ensures (b * q) % b == 0
  {
    var d, m := (b * q) / b, (b * q) % b;
    assert b * (q - d) == m;
    if q - d >= 1 {
      MulAtLeast(b, q - d);
    } else if q - d <= -1 {
      MulAtLeast(b, d - q);
    }
  }

  // ---------------------------------------------------------------------------
  // The pager
  // ---------------------------------------------------------------------------

  /** The pager's variables: first line shown, last search term, its results and the current match. */
  datatype Pager = Pager(currentLine: int, term: string, results: seq<int>, searchIndex: int)

  /** The pager as it opens: at the top, no search. */
  const Opened := Pager(0, "", [], -1)

  /**
   * What holds between commands: the first line shown exists, the results
   * are none or those of the last term, and a current match exists whenever
   * there are results.
   */
  predicate PagerInv(lines: seq<string>, p: Pager)
  {
    && 0 <= p.currentLine < |lines|
    && (p.results == [] || p.results == Matches(lines, p.term))
    && (p.results != [] ==> 0 <= p.searchIndex < |p.results|)
  }

  /** The lines on screen for a first line: up to PageSize of them. */
  function Page(lines: seq<string>, currentLine: int): (page: seq<string>)
    requires 0 <= currentLine < |lines|
    ensures 1 <= |page| <= PageSize && currentLine + |page| <= |lines|
    ensures page == lines[currentLine..currentLine + |page|]
    ensures |page| < PageSize ==> currentLine + |page| == |lines|
  {
    var endLine := if currentLine + PageSize > |lines| then |lines| else currentLine + PageSize;
    lines[currentLine..endLine]
  }

  datatype PagerCommand = Quit | Down | Up | Top | Bottom | Search(term: string) | Next | Prev | Unknown

  /** A typed line as a pager command: the line is trimmed, `/` starts a search for the rest. */
  function PagerCommandOf(input: string): (c: PagerCommand)
    ensures c.Search? <==> HasPrefix(TrimSpace(input), "/")
    ensures c.Search? ==> TrimSpace(input) == "/" + c.term
  {
    var t := TrimSpace(input);
    if t == "q" then Quit
    else if t == "j" || t == "" then Down
    else if t == "k" then Up
    else if t == "g" then Top
    else if t == "G" then Bottom
    else if HasPrefix(t, "/") then Search(t[1..])
    else if t == "n" then Next
    else if t == "N" then Prev
    else Unknown
  }

  /** One pager command. Every command keeps the pager invariant. */
  function Step(lines: seq<string>, p: Pager, c: PagerCommand): (q: Pager)
    requires PagerInv(lines, p)
    ensures PagerInv(lines, q)
  {
    match c
    case Down =>
      if p.currentLine + PageSize < |lines| then p.(currentLine := p.currentLine + PageSize) else p
    case Up =>
      if p.currentLine - PageSize >= 0 then p.(currentLine := p.currentLine - PageSize) else p.(currentLine := 0)
    case Top => p.(currentLine := 0)
    case Bottom =>
      if |lines| > PageSize then p.(currentLine := |lines| - PageSize) else p
    case Search(t) =>
      var rs := Matches(lines, t);
      if |rs| > 0 then Pager(rs[0], t, rs, 0) else Pager(p.currentLine, t, rs, p.searchIndex)
    case Next =>
      if |p.results| > 0 then
        var i := GoRem(p.searchIndex + 1, |p.results|);
        p.(searchIndex := i, currentLine := p.results[i])
      else p
    case Prev =>
      if |p.results| > 0 then
        var i := GoRem(p.searchIndex - 1 + |p.results|, |p.results|);
        p.(searchIndex := i, currentLine := p.results[i])
      else p
    case Quit => p
    case Unknown => p
  }

  /**
   * A search for a term some line contains jumps to the first such line and
   * makes it the current match; a search without matches leaves the
   * position and the current match alone and forgets the old results.
   */
  lemma SearchJumpsToFirstMatch(lines: seq<string>, p: Pager, t: string)
    requires PagerInv(lines, p)
    ensures var q := Step(lines, p, Search(t));
      && q.term == t
      && ((exists i :: 0 <= i < |lines| && LineMatches(lines[i], t)) ==>
            && q.searchIndex == 0
            && LineMatches(lines[q.currentLine], t)
            && forall i :: 0 <= i < q.currentLine ==> !LineMatches(lines[i], t))
      && ((forall i :: 0 <= i < |lines| ==> !LineMatches(lines[i], t)) ==>
            q.results == [] && q.currentLine == p.currentLine && q.searchIndex == p.searchIndex)
  {
    var rs := Matches(lines, t);
    assert forall k :: 0 <= k < |rs| ==> LineMatches(lines[rs[k]], t);
    if i :| 0 <= i < |lines| && LineMatches(lines[i], t) {
      assert i in rs;
      assert forall k :: 0 <= k < |rs| ==> rs[0] <= rs[k];
      assert forall j :: 0 <= j < rs[0] ==> j !in rs;
    }
  }

  /** `n` and `N` keep the results and always land on a line that matches the term. */
  lemma MoveLandsOnMatch(lines: seq<string>, p: Pager, c: PagerCommand)
    requires PagerInv(lines, p) && p.results != [] && (c == Next || c == Prev)
    ensures var q := Step(lines, p, c);
      && q.results == p.results && q.term == p.term
      && q.currentLine == q.results[q.searchIndex]
      && LineMatches(lines[q.currentLine], q.term)
  {
    var q := Step(lines, p, c);
    assert q.currentLine in Matches(lines, p.term);
  }

  /** `n` followed by `N` returns to the same match. */
  lemma NextThenPrev(lines: seq<string>, p: Pager)
    requires PagerInv(lines, p) && p.results != []
    ensures var q := Step(lines, Step(lines, p, Next), Prev);
      && q.searchIndex == p.searchIndex
      && q.currentLine == p.results[p.searchIndex]
      && q.results == p.results
  {
    var n := |p.results|;
    var s := p.searchIndex;
    var i := GoRem(s + 1, n);
    if s + 1 < n {
      assert i == s + 1;
      assert GoRem(i - 1 + n, n) == s;
    } else {
      assert i == 0;
      assert GoRem(i - 1 + n, n) == s;
    }
  }

  /** The typed lines as pager commands. */
  function PagerCommands(inputs: seq<string>): (cs: seq<PagerCommand>)
    ensures |cs| == |inputs| && forall i :: 0 <= i < |inputs| ==> cs[i] == PagerCommandOf(inputs[i])
  {
    seq(|inputs|, i requires 0 <= i < |inputs| => PagerCommandOf(inputs[i]))
  }

  /**
   * The pager run over a command sequence: commands apply in order until `q`
   * (which is consumed) or the end of input. Returns the final state and the
   * number of commands read.
   */
  function RunPager(lines: seq<string>, p: Pager, cs: seq<PagerCommand>): (r: (Pager, nat))
    requires PagerInv(lines, p)
    ensures PagerInv(lines, r.0)
    ensures r.1 <= |cs|
    ensures forall k :: 0 <= k < r.1 - 1 ==> cs[k] != Quit
    ensures r.1 < |cs| ==> r.1 > 0 && cs[r.1 - 1] == Quit
    decreases |cs|
  {
    if cs == [] then (p, 0)
    else if cs[0] == Quit then (p, 1)
    else
      var r := RunPager(lines, Step(lines, p, cs[0]), cs[1..]);
      assert forall k :: 1 <= k < |cs| ==> cs[1..][k - 1] == cs[k];
      (r.0, r.1 + 1)
  }

  /** One command that is not `q` moves the run one step on. */
  lemma RunPagerStep(lines: seq<string>, p: Pager, cs: seq<PagerCommand>, i: nat)
    requires PagerInv(lines, p) && i < |cs| && cs[i] != Quit
    ensures var q := Step(lines, p, cs[i]);
      var r := RunPager(lines, q, cs[i + 1..]);
      RunPager(lines, p, cs[i..]) == (r.0, r.1 + 1)
  {
    assert cs[i..][0] == cs[i] && cs[i..][1..] == cs[i + 1..];
  }

  /** One pass of the pager's command switch, on the pager's four variables. */
  method ApplyPagerCommand(lines: seq<string>, currentLine0: int, term0: string, results0: seq<int>, searchIndex0: int, cmd: PagerCommand)
    returns (currentLine: int, term: string, results: seq<int>, searchIndex: int)
    requires PagerInv(lines, Pager(currentLine0, term0, results0, searchIndex0))
    ensures Pager(currentLine, term, results, searchIndex) == Step(lines, Pager(currentLine0, term0, results0, searchIndex0), cmd)
  {
    currentLine, term, results, searchIndex := currentLine0, term0, results0, searchIndex0;
    match cmd {
      case Down =>
        if currentLine + PageSize < |lines| {
          currentLine := currentLine + PageSize;
        }
      case Up =>
        if currentLine - PageSize >= 0 {
          currentLine := currentLine - PageSize;
        } else {
          currentLine := 0;
        }
      case Top =>
        currentLine := 0;
      case Bottom =>
        if |lines| > PageSize {
          currentLine := |lines| - PageSize;
        }
      case Search(t) =>
        term := t;
        results := FindMatches(lines, term);
        if |results| > 0 {
          searchIndex := 0;
          currentLine := results[0];
        }
      case Next =>
        if |results| > 0 {
          searchIndex := GoRem(searchIndex + 1, |results|);
          currentLine := results[searchIndex];
        }
      case Prev =>
        if |results| > 0 {
          searchIndex := GoRem(searchIndex - 1 + |results|, |results|);
          currentLine := results[searchIndex];
        }
      case Quit =>
      case Unknown =>
    }
  }

  /** A leading `q` ends the pager at once, on the state it is in. */
  lemma RunPagerQuit(lines: seq<string>, p: Pager, cs: seq<PagerCommand>)
    requires PagerInv(lines, p) && cs != [] && cs[0] == Quit
    ensures RunPager(lines, p, cs) == (p, 1)
  {
  }

  /**
   * viewScrollback: an empty scrollback only waits for Enter; otherwise the
   * scrollback is split into lines and the pager loop runs on the input
   * until `q`.
   */
  method ViewScrollback(sb: seq<byte>, inputs: seq<string>) returns (final: Option<Pager>, used: nat)
    ensures sb == [] ==> final == None && used == (if inputs == [] then 0 else 1)
    ensures sb != [] ==> final.Some? && (final.value, used) == RunPager(Lines(sb), Opened, PagerCommands(inputs))
  {
    if |sb| == 0 {
      used := if |inputs| > 0 then 1 else 0;
      return None, used;
    }
    var lines := Lines(sb);
    var p;
    p, used := PagerLoop(lines, inputs);
    final := Some(p);
  }

  /**
   * The pager's read-and-dispatch loop over the lines of a non-empty
   * scrollback, from the top of the text with no search, until `q` or the
   * end of the typed lines.
   */
  method PagerLoop(lines: seq<string>, inputs: seq<string>) returns (final: Pager, used: nat)
    requires PagerInv(lines, Opened)
    ensures (final, used) == RunPager(lines, Opened, PagerCommands(inputs))
  {
    var currentLine, term, results, searchIndex := 0, "", [], -1;
    ghost var cs := PagerCommands(inputs);
    ghost var run := RunPager(lines, Opened, cs);
    used := 0;
    while used < |inputs|
      invariant 0 <= used <= |inputs|
      invariant PagerInv(lines, Pager(currentLine, term, results, searchIndex))
      invariant RunPager(lines, Pager(currentLine, term, results, searchIndex), cs[used..]) == (run.0, run.1 - used)
      decreases |inputs| - used
    {
      var cmd := PagerCommandOf(inputs[used]);
      assert cmd == cs[used] == cs[used..][0];
      if cmd == Quit {
        RunPagerQuit(lines, Pager(currentLine, term, results, searchIndex), cs[used..]);
        return Pager(currentLine, term, results, searchIndex), used + 1;
      }
      RunPagerStep(lines, Pager(currentLine, term, results, searchIndex), cs, used);
      currentLine, term, results, searchIndex := ApplyPagerCommand(lines, currentLine, term, results, searchIndex, cmd);
      used := used + 1;
    }
    assert cs[used..] == [];
    final := Pager(currentLine, term, results, searchIndex);
  }

  // ---------------------------------------------------------------------------
  // Host selection
  // ---------------------------------------------------------------------------

  datatype SelectCommand = Cancel | Done | SelectAll | ClearAll | Toggle(n: int) | Ignore

  /**
   * A typed line as a selection command; anything else that reads as an
   * integer toggles that host. `scan` stands for reading an integer with
   * `%d`.
   */
  function SelectCommandOf(input: string, scan: string -> Option<int>): (c: SelectCommand)
    ensures c.Toggle? ==> scan(TrimSpace(input)) == Some(c.n)
    ensures c == Ignore <==> TrimSpace(input) !in {"q", "d", "a", "c"} && scan(TrimSpace(input)) == None
  {
    var t := TrimSpace(input);
    if t == "q" then Cancel
    else if t == "d" then Done
    else if t == "a" then SelectAll
    else if t == "c" then ClearAll
    else match scan(t)
      case Some(n) => Toggle(n)
      case None => Ignore
  }

  /** A selection names host positions only. */
  predicate InRange(sel: set<int>, n: nat)
  {
    forall i :: i in sel ==> 0 <= i < n
  }

  /** The positions of n hosts. */
  function AllPositions(n: nat): (s: set<int>)
    ensures forall i :: i in s <==> 0 <= i < n
  {
    if n == 0 then {} else AllPositions(n - 1) + {n - 1}
  }

  /** The effect of a command on the selected positions of n hosts. */
  function SelectStep(sel: set<int>, n: nat, c: SelectCommand): (s: set<int>)
    requires InRange(sel, n)
    ensures InRange(s, n)
  {
    match c
    case SelectAll => AllPositions(n)
    case ClearAll => {}
    case Toggle(k) =>
      if 0 < k <= n then (if k - 1 in sel then sel - {k - 1} else sel + {k - 1}) else sel
    case _ => sel
  }

  /** A number in range flips exactly its host; any other input leaves the selection alone. */
  lemma ToggleFlipsOne(sel: set<int>, n: nat, k: int)
    requires InRange(sel, n)
    ensures var s := SelectStep(sel, n, Toggle(k));
      forall i :: i in s <==> (if 0 < k <= n && i == k - 1 then i !in sel else i in sel)
  {
  }

  /** Toggling the same number twice restores the selection. */
  lemma ToggleTwice(sel: set<int>, n: nat, k: int)
    requires InRange(sel, n)
    ensures SelectStep(SelectStep(sel, n, Toggle(k)), n, Toggle(k)) == sel
  {
  }

  /** The selected positions below n, ascending. */
  function SelectedIndices(n: nat, sel: set<int>): (r: seq<int>)
    ensures forall k :: 0 <= k < |r| ==> 0 <= r[k] < n
    ensures forall j, k :: 0 <= j < k < |r| ==> r[j] < r[k]
    ensures forall i :: 0 <= i < n ==> (i in r <==> i in sel)
  {
    if n == 0 then []
    else SelectedIndices(n - 1, sel) + (if n - 1 in sel then [n - 1] else [])
  }

  /** The hosts `d` returns: the selected ones, in list order. */
  function ChosenHosts(hosts: seq<Config.SSHHost>, sel: set<int>): (r: seq<Config.SSHHost>)
    ensures |r| <= |hosts|
    ensures forall k :: 0 <= k < |r| ==> r[k] in hosts
    decreases |hosts|
  {
    if hosts == [] then []
    else
      var last := |hosts| - 1;
      ChosenHosts(hosts[..last], sel) + (if last in sel then [hosts[last]] else [])
  }

  /** The chosen hosts are exactly the hosts at the selected positions, once each, in ascending position. */
  lemma {:induction false} ChosenAreSelected(hosts: seq<Config.SSHHost>, sel: set<int>)
    ensures var ix := SelectedIndices(|hosts|, sel);
      var r := ChosenHosts(hosts, sel);
      |r| == |ix| && forall k :: 0 <= k < |ix| ==> r[k] == hosts[ix[k]]
    decreases |hosts|
  {
    if hosts != [] {
      var last := |hosts| - 1;
      ChosenAreSelected(hosts[..last], sel);
      var ix0 := SelectedIndices(last, sel);
      assert forall k :: 0 <= k < |ix0| ==> hosts[..last][ix0[k]] == hosts[ix0[k]];
    }
  }

  /** After `a`, `d` returns every host, in order. */
  lemma {:induction false} AllChoosesEveryHost(hosts: seq<Config.SSHHost>, sel: set<int>)
    requires InRange(sel, |hosts|)
    ensures ChosenHosts(hosts, SelectStep(sel, |hosts|, SelectAll)) == hosts
  {
    AllPrefix(hosts, |hosts|);
    assert hosts[..|hosts|] == hosts;
  }

  lemma {:induction false} AllPrefix(hosts: seq<Config.SSHHost>, m: nat)
    requires m <= |hosts|
    ensures ChosenHosts(hosts[..m], AllPositions(|hosts|)) == hosts[..m]
  {
    if m > 0 {
      AllPrefix(hosts, m - 1);
      assert hosts[..m][..m - 1] == hosts[..m - 1];
      assert hosts[..m] == hosts[..m - 1] + [hosts[m - 1]];
    }
  }

  /** After `c`, `d` returns no host. */
  lemma {:induction false} ClearChoosesNothing(hosts: seq<Config.SSHHost>)
    ensures ChosenHosts(hosts, {}) == []
    decreases |hosts|
  {
    if hosts != [] {
      ClearChoosesNothing(hosts[..|hosts| - 1]);
    }
  }

  /** How host selection ended. */
  datatype Selection = Cancelled | Chosen(hosts: seq<Config.SSHHost>) | Unfinished(selected: set<int>)

  /** The typed lines as selection commands. */
  function SelectCommands(inputs: seq<string>, scan: string -> Option<int>): (cs: seq<SelectCommand>)
    ensures |cs| == |inputs| && forall i :: 0 <= i < |inputs| ==> cs[i] == SelectCommandOf(inputs[i], scan)
  {
    seq(|inputs|, i requires 0 <= i < |inputs| => SelectCommandOf(inputs[i], scan))
  }

  /** The selection run over a command sequence, until `q`, `d` or the end of input. */
  function RunSelect(hosts: seq<Config.SSHHost>, sel: set<int>, cs: seq<SelectCommand>): (r: Selection)
    requires InRange(sel, |hosts|)
    ensures r.Unfinished? ==> InRange(r.selected, |hosts|)
    ensures r.Chosen? ==> |r.hosts| <= |hosts|
    decreases |cs|
  {
    if cs == [] then Unfinished(sel)
    else
      match cs[0]
      case Cancel => Cancelled
      case Done => Chosen(ChosenHosts(hosts, sel))
      case c => RunSelect(hosts, SelectStep(sel, |hosts|, c), cs[1..])
  }

  /** A command other than `q` and `d` moves the selection run one step on. */
  lemma RunSelectStep(hosts: seq<Config.SSHHost>, sel: set<int>, cs: seq<SelectCommand>, i: nat)
    requires InRange(sel, |hosts|) && i < |cs| && cs[i] != Cancel && cs[i] != Done
    ensures RunSelect(hosts, sel, cs[i..]) == RunSelect(hosts, SelectStep(sel, |hosts|, cs[i]), cs[i + 1..])
  {
    assert cs[i..][0] == cs[i] && cs[i..][1..] == cs[i + 1..];
  }

  /** The positions a selection map marks true (a missing key reads as false). */
  function Marked(m: map<int, bool>): (s: set<int>)
    ensures forall i :: i in s <==> i in m && m[i]
  {
    set i | i in m.Keys && m[i]
  }

  /** The loop behind `d`: walk the hosts in order and keep the marked ones. */
  method CollectSelected(hosts: seq<Config.SSHHost>, selected: map<int, bool>) returns (result: seq<Config.SSHHost>)
    ensures result == ChosenHosts(hosts, Marked(selected))
  {
    result := [];
    var i := 0;
    while i < |hosts|
      invariant 0 <= i <= |hosts|
      invariant result == ChosenHosts(hosts[..i], Marked(selected))
    {
      assert hosts[..i + 1][..i] == hosts[..i];
      if i in selected && selected[i] {
        result := result + [hosts[i]];
      }
      i := i + 1;
    }
    assert hosts[..i] == hosts;
  }

  /** The loop behind `a`: mark every host position. */
  method MarkAll(selected: map<int, bool>, n: nat) returns (m: map<int, bool>)
    ensures Marked(m) == Marked(selected) + AllPositions(n)
  {
    m := selected;
    var i := 0;
    while i < n
      invariant 0 <= i <= n
      invariant Marked(m) == Marked(selected) + AllPositions(i)
    {
      m := m[i := true];
      i := i + 1;
    }
  }

  /** One pass of the selection switch for a command other than `q` and `d`. */
  method ApplySelectCommand(selected0: map<int, bool>, n: nat, cmd: SelectCommand) returns (selected: map<int, bool>)
    requires InRange(Marked(selected0), n) && cmd != Cancel && cmd != Done
    ensures Marked(selected) == SelectStep(Marked(selected0), n, cmd)
  {
    selected := selected0;
    match cmd {
      case SelectAll =>
        selected := MarkAll(selected, n);
      case ClearAll =>
        selected := map[];
      case Toggle(num) =>
        if num > 0 && num <= n {
          var idx := num - 1;
          var wasSelected := idx in selected && selected[idx];
          selected := selected[idx := !wasSelected];
        }
      case Ignore =>
    }
  }

  /** selectHosts: the toggle loop over a map of selected positions, until `q` or `d`. */
  method SelectHosts(hosts: seq<Config.SSHHost>, inputs: seq<string>, scan: string -> Option<int>) returns (r: Selection)
    ensures r == RunSelect(hosts, {}, SelectCommands(inputs, scan))
  {
    var selected: map<int, bool> := map[];
    ghost var cs := SelectCommands(inputs, scan);
    ghost var outcome := RunSelect(hosts, {}, cs);
    assert Marked(selected) == {};
    var used := 0;
    while used < |inputs|
      invariant 0 <= used <= |inputs|
      invariant InRange(Marked(selected), |hosts|)
      invariant RunSelect(hosts, Marked(selected), cs[used..]) == outcome
      decreases |inputs| - used
    {
      var cmd := SelectCommandOf(inputs[used], scan);
      assert cmd == cs[used] == cs[used..][0];
      if cmd == Cancel {
        return Cancelled;
      } else if cmd == Done {
        var result := CollectSelected(hosts, selected);
        return Chosen(result);
      }
      RunSelectStep(hosts, Marked(selected), cs, used);
      selected := ApplySelectCommand(selected, |hosts|, cmd);
      used := used + 1;
    }
    r := Unfinished(Marked(selected));
  }
}
