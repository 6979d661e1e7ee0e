/**
 * The ssh_config(5) subset reader of the session manager: Host, HostName,
 * User, Port, LocalForward, RemoteForward and DynamicForward; and the two
 * functions that turn a host's forwards into `ssh` arguments and into the
 * menu's tag. The file itself is not read here: the parser takes its lines.
 */
module Config {
  import opened Common
  import opened Text

  /** A port forward; `kind` is "L", "R" or "D" (dynamic forwards have an empty remote address). */
  datatype PortForward = PortForward(kind: string, localPort: string, remoteAddr: string)

  datatype SSHHost = SSHHost(alias: string, hostName: string, user: string, port: string, forwards: seq<PortForward>)

  function NewHost(alias: string): SSHHost
  {
    SSHHost(alias, "", "", "", [])
  }

  // ---------------------------------------------------------------------------
  // Forward directives
  // ---------------------------------------------------------------------------

  /** The shared shape of LocalForward and RemoteForward: a port and an address, extra fields ignored. */
  function AddressForward(kind: string, value: string): (r: Option<PortForward>)
    ensures r.None? <==> |Fields(value)| < 2
    ensures r.Some? ==> r.value.kind == kind && IsWord(r.value.localPort) && IsWord(r.value.remoteAddr)
  {
    var parts := Fields(value);
    if |parts| < 2 then None else Some(PortForward(kind, parts[0], parts[1]))
  }

  /** parseLocalForward: none for fewer than two fields, else an "L" forward from two words. */
  function ParseLocalForward(value: string): (r: Option<PortForward>)
    ensures r.None? <==> |Fields(value)| < 2
    ensures r.Some? ==> r.value.kind == "L" && IsWord(r.value.localPort) && IsWord(r.value.remoteAddr)
  {
    AddressForward("L", value)
  }

  /** parseRemoteForward: none for fewer than two fields, else an "R" forward from two words. */
  function ParseRemoteForward(value: string): (r: Option<PortForward>)
    ensures r.None? <==> |Fields(value)| < 2
    ensures r.Some? ==> r.value.kind == "R" && IsWord(r.value.localPort) && IsWord(r.value.remoteAddr)
  {
    AddressForward("R", value)
  }

  /** parseDynamicForward: none for a blank value, else a "D" forward whose port has no surrounding space. */
  function ParseDynamicForward(value: string): (r: Option<PortForward>)
    ensures r.None? <==> TrimSpace(value) == ""
    ensures r.Some? ==> var p := r.value.localPort;
      && r.value.kind == "D" && r.value.remoteAddr == ""
      && p != "" && !IsSpace(p[0]) && !IsSpace(p[|p| - 1])
  {
    var port := TrimSpace(value);
    if port == "" then None else Some(PortForward("D", port, ""))
  }

  /** Words joined with single spaces have no white space to trim. */
  lemma JoinedWordsAreTrimmed(ws: seq<string>)
    requires forall i :: 0 <= i < |ws| ==> IsWord(ws[i])
    ensures TrimSpace(Join(ws, " ")) == Join(ws, " ")
    ensures Join(ws, " ") == "" <==> ws == []
  {
    var s := Join(ws, " ");
    if ws != [] {
      JoinEnds(ws);
      assert TrimLeft(s) == s;
      assert TrimRight(s) == s;
    }
  }

  /** Words joined with single spaces start with the first word and end with the last. */
  lemma {:induction false} JoinEnds(ws: seq<string>)
    requires ws != []
    requires forall i :: 0 <= i < |ws| ==> IsWord(ws[i])
    ensures var s := Join(ws, " ");
      && s != [] && !IsSpace(s[0]) && !IsSpace(s[|s| - 1])
      && (HasPrefix(s, "#") <==> HasPrefix(ws[0], "#"))
  {
    assert IsWord(ws[0]);
    if |ws| > 1 {
      JoinEnds(ws[1..]);
      var rest := Join(ws[1..], " ");
      assert Join(ws, " ") == ws[0] + (" " + rest);
    }
  }

  /**
   * What each forward directive yields from the words after its keyword:
   * Local/Remote need two words (further words are ignored), Dynamic needs one
   * and keeps the whole value as its port.
   */
  lemma ForwardsFromWords(ws: seq<string>)
    requires forall i :: 0 <= i < |ws| ==> IsWord(ws[i])
    ensures ParseLocalForward(Join(ws, " ")) == if |ws| < 2 then None else Some(PortForward("L", ws[0], ws[1]))
    ensures ParseRemoteForward(Join(ws, " ")) == if |ws| < 2 then None else Some(PortForward("R", ws[0], ws[1]))
    ensures ParseDynamicForward(Join(ws, " ")) == if ws == [] then None else Some(PortForward("D", Join(ws, " "), ""))
  {
    FieldsOfJoin(ws);
    JoinedWordsAreTrimmed(ws);
  }

  // ---------------------------------------------------------------------------
  // Lines and directives
  // ---------------------------------------------------------------------------

  /**
   * A line's keyword (lower-cased) and value (the remaining fields re-joined
   * with single spaces), or None for a blank line, a comment, or a line with
   * fewer than two fields.
   */
  function Directive(raw: string): (d: Option<(string, string)>)
    ensures d.Some? ==> d.value.0 != "" && forall i :: 0 <= i < |d.value.0| ==> LowerChar(d.value.0[i]) == d.value.0[i]
    ensures d.Some? ==> d.value.1 != "" && TrimSpace(d.value.1) == d.value.1
  {
    var line := TrimSpace(raw);
    if line == "" || HasPrefix(line, "#") then None
    else
      var parts := Fields(line);
      if |parts| < 2 then None
      else
        JoinedWordsAreTrimmed(parts[1..]);
        Some((ToLower(parts[0]), Join(parts[1..], " ")))
  }

  /**
   * Blank lines, comments and lines with fewer than two fields yield nothing;
   * otherwise the keyword is the lower-cased first field and the value's
   * fields are exactly the line's remaining fields.
   */
  lemma DirectiveShape(raw: string)
    ensures var line := TrimSpace(raw); var d := Directive(raw);
      && (d.None? <==> line == "" || HasPrefix(line, "#") || |Fields(line)| < 2)
      && (d.Some? ==> d.value.0 == ToLower(Fields(line)[0]) && Fields(d.value.1) == Fields(line)[1..]
                      && Join(Fields(d.value.1), " ") == d.value.1)
  {
    var line := TrimSpace(raw);
    if Directive(raw).Some? {
      FieldsOfJoin(Fields(line)[1..]);
    }
  }

  /** A line made of words whose first does not start a comment is read as keyword and value. */
  lemma DirectiveOfWords(ws: seq<string>)
    requires |ws| >= 2 && forall i :: 0 <= i < |ws| ==> IsWord(ws[i])
    requires !HasPrefix(ws[0], "#")
    ensures Directive(Join(ws, " ")) == Some((ToLower(ws[0]), Join(ws[1..], " ")))
  {
    JoinedWordsAreTrimmed(ws);
    FieldsOfJoin(ws);
    JoinEnds(ws);
  }

  /** The keyword is matched case-insensitively: two spellings with the same lower case read the same. */
  lemma KeywordCaseInsensitive(key1: string, key2: string, args: seq<string>)
    requires IsWord(key1) && IsWord(key2) && !HasPrefix(key1, "#") && !HasPrefix(key2, "#")
    requires ToLower(key1) == ToLower(key2)
    requires args != [] && forall i :: 0 <= i < |args| ==> IsWord(args[i])
    ensures Directive(Join([key1] + args, " ")) == Directive(Join([key2] + args, " ")) != None
  {
    var ws1, ws2 := [key1] + args, [key2] + args;
    assert ws1[1..] == args && ws2[1..] == args;
    forall i | 0 <= i < |ws1|
      ensures IsWord(ws1[i]) && IsWord(ws2[i])
    {
      if i > 0 {
        assert ws1[i] == args[i - 1] == ws2[i];
      }
    }
    DirectiveOfWords(ws1);
    DirectiveOfWords(ws2);
  }

  /** Every line of the file read as a directive. */
  function Lex(lines: seq<string>): (ds: seq<Option<(string, string)>>)
    ensures |ds| == |lines| && forall i :: 0 <= i < |lines| ==> ds[i] == Directive(lines[i])
  {
    if lines == [] then [] else [Directive(lines[0])] + Lex(lines[1..])
  }

  // ---------------------------------------------------------------------------
  // The parser as a fold over directives
  // ---------------------------------------------------------------------------

  /** The parser's variables: the hosts emitted so far and the open host block, if any. */
  datatype ParseState = ParseState(hosts: seq<SSHHost>, current: Option<SSHHost>)

  const Start := ParseState([], None)

  /** The hosts so far plus the open block. */
  function Emit(st: ParseState): seq<SSHHost>
  {
    st.hosts + if st.current.Some? then [st.current.value] else []
  }

  function AddForward(h: SSHHost, fwd: Option<PortForward>): SSHHost
  {
    if fwd.Some? then h.(forwards := h.forwards + [fwd.value]) else h
  }

  /** The keywords the parser acts on; the `switch` on the lower-cased first field. */
  datatype Keyword = HostKey | HostNameKey | UserKey | PortKey | LocalForwardKey | RemoteForwardKey | DynamicForwardKey | OtherKey

  function KeywordOf(key: string): Keyword
  {
    if key == "host" then HostKey
    else if key == "hostname" then HostNameKey
    else if key == "user" then UserKey
    else if key == "port" then PortKey
    else if key == "localforward" then LocalForwardKey
    else if key == "remoteforward" then RemoteForwardKey
    else if key == "dynamicforward" then DynamicForwardKey
    else OtherKey
  }

  /** The forward a forward directive yields, None for other keywords. */
  function DirectiveForward(kw: Keyword, value: string): Option<PortForward>
  {
    match kw
    case LocalForwardKey => ParseLocalForward(value)
    case RemoteForwardKey => ParseRemoteForward(value)
    case DynamicForwardKey => ParseDynamicForward(value)
    case _ => None
  }

  /** The effect of a non-Host directive on the open host; unknown keywords change nothing. */
  function ApplyDirective(h: SSHHost, kw: Keyword, value: string): SSHHost
  {
    match kw
    case HostNameKey => h.(hostName := value)
    case UserKey => h.(user := value)
    case PortKey => h.(port := value)
    case _ => AddForward(h, DirectiveForward(kw, value))
  }

  /** One line of the file, already read as a directive. */
  function Step(st: ParseState, d: Option<(string, string)>): (r: ParseState)
    ensures |st.hosts| <= |r.hosts| <= |st.hosts| + 1 && r.hosts[..|st.hosts|] == st.hosts
  {
    match d
    case None => st
    case Some((key, value)) =>
      if KeywordOf(key) == HostKey then
        if '*' in value then ParseState(st.hosts, None)
        else ParseState(Emit(st), Some(NewHost(value)))
      else if st.current.None? then st
      else ParseState(st.hosts, Some(ApplyDirective(st.current.value, KeywordOf(key), value)))
  }

  function Fold(st: ParseState, ds: seq<Option<(string, string)>>): ParseState
    decreases |ds|
  {
    if ds == [] then st else Fold(Step(st, ds[0]), ds[1..])
  }

  /** The hosts the whole file yields. */
  function ParseConfig(lines: seq<string>): (hosts: seq<SSHHost>)
    ensures forall i :: 0 <= i < |hosts| ==> AllRecognised(hosts[i].forwards)
  {
    FoldRecognised(Start, Lex(lines));
    Emit(Fold(Start, Lex(lines)))
  }

  /** parseSSHConfig's loop, over the lines of the file. */
  method ParseSSHConfig(lines: seq<string>) returns (hosts: seq<SSHHost>)
    ensures hosts == ParseConfig(lines)
  {
    hosts := [];
    var current: Option<SSHHost> := None;
    ghost var ds := Lex(lines);
    var i := 0;
    while i < |lines|
      invariant 0 <= i <= |lines|
      invariant Fold(ParseState(hosts, current), ds[i..]) == Fold(Start, ds)
    {
      ghost var before := ParseState(hosts, current);
      var raw := lines[i];
      ghost var d := Directive(raw);
      assert ds[i] == d;
      FoldStep(before, ds, i);
      ghost var after := Step(before, d);
      i := i + 1;
      assert Fold(after, ds[i..]) == Fold(Start, ds);

      var line := TrimSpace(raw);
      if line == "" || HasPrefix(line, "#") {
        assert d == None;
        continue;
      }
      var parts := Fields(line);
      if |parts| < 2 {
        assert d == None;
        continue;
      }
      var key := ToLower(parts[0]);
      var value := Join(parts[1..], " ");
      assert d == Some((key, value));

      var kw := KeywordOf(key);
      if kw == HostKey {
        if '*' in value {
          current := None;
          assert ParseState(hosts, current) == after;
          continue;
        }
        if current.Some? {
          hosts := hosts + [current.value];
        }
        current := Some(NewHost(value));
        assert ParseState(hosts, current) == after;
        continue;
      }

      if current.None? {
        assert after == before;
        continue;
      }

      var h := current.value;
      match kw {
        case HostNameKey =>
          h := h.(hostName := value);
        case UserKey =>
          h := h.(user := value);
        case PortKey =>
          h := h.(port := value);
        case LocalForwardKey =>
          var fwd := ParseLocalForward(value);
          if fwd.Some? {
            h := h.(forwards := h.forwards + [fwd.value]);
          }
        case RemoteForwardKey =>
          var fwd := ParseRemoteForward(value);
          if fwd.Some? {
            h := h.(forwards := h.forwards + [fwd.value]);
          }
        case DynamicForwardKey =>
          var fwd := ParseDynamicForward(value);
          if fwd.Some? {
            h := h.(forwards := h.forwards + [fwd.value]);
          }
        case _ =>
      }
      assert h == ApplyDirective(current.value, kw, value);
      current := Some(h);
    }
    if current.Some? {
      hosts := hosts + [current.value];
    }
  }

  // ---------------------------------------------------------------------------
  // What the parser yields
  // ---------------------------------------------------------------------------

  lemma {:induction false} FoldAppend(st: ParseState, a: seq<Option<(string, string)>>, b: seq<Option<(string, string)>>)
    ensures Fold(st, a + b) == Fold(Fold(st, a), b)
    decreases |a|
  {
    if a == [] {
      assert a + b == b;
    } else {
      assert (a + b)[1..] == a[1..] + b;
      FoldAppend(Step(st, a[0]), a[1..], b);
    }
  }

  lemma FoldStep(st: ParseState, ds: seq<Option<(string, string)>>, i: nat)
    requires i < |ds|
    ensures Fold(st, ds[i..]) == Fold(Step(st, ds[i]), ds[i + 1..])
  {
    assert ds[i..][1..] == ds[i + 1..];
  }

  lemma LexAppend(a: seq<string>, b: seq<string>)
    ensures Lex(a + b) == Lex(a) + Lex(b)
  {
    assert forall i :: 0 <= i < |a| ==> (a + b)[i] == a[i];
    assert forall i :: 0 <= i < |b| ==> (a + b)[|a| + i] == b[i];
  }

  /** The value of a `Host` directive, if it is one. */
  function HostValue(d: Option<(string, string)>): Option<string>
  {
    if d.Some? && KeywordOf(d.value.0) == HostKey then Some(d.value.1) else None
  }

  predicate NoHostLine(ds: seq<Option<(string, string)>>)
  {
    forall i :: 0 <= i < |ds| ==> HostValue(ds[i]).None?
  }

  /** Whether the next Host line is a wildcard pattern (false when there is none). */
  function NextHostIsWildcard(ds: seq<Option<(string, string)>>): bool
  {
    if ds == [] then false
    else match HostValue(ds[0])
      case Some(v) => '*' in v
      case None => NextHostIsWildcard(ds[1..])
  }

  /**
   * The aliases a file yields, read off its Host lines alone: a non-wildcard
   * Host line yields its value unless the next Host line is a wildcard,
   * which discards the block.
   */
  function HostAliases(ds: seq<Option<(string, string)>>): seq<string>
  {
    if ds == [] then []
    else match HostValue(ds[0])
      case Some(v) => (if '*' !in v && !NextHostIsWildcard(ds[1..]) then [v] else []) + HostAliases(ds[1..])
      case None => HostAliases(ds[1..])
  }

  function Aliases(hosts: seq<SSHHost>): seq<string>
  {
    if hosts == [] then [] else [hosts[0].alias] + Aliases(hosts[1..])
  }

  lemma {:induction false} AliasesAppend(a: seq<SSHHost>, b: seq<SSHHost>)
    ensures Aliases(a + b) == Aliases(a) + Aliases(b)
  {
    if a == [] {
      assert a + b == b;
    } else {
      assert (a + b)[1..] == a[1..] + b;
      AliasesAppend(a[1..], b);
    }
  }

  /** How one directive moves the parser, as far as hosts and aliases are concerned. */
  lemma StepEffect(st: ParseState, d: Option<(string, string)>)
    ensures HostValue(d).None? ==>
      && Step(st, d).hosts == st.hosts
      && Step(st, d).current.Some? == st.current.Some?
      && (st.current.Some? ==> Step(st, d).current.value.alias == st.current.value.alias)
    ensures HostValue(d).Some? && '*' in HostValue(d).value ==> Step(st, d) == ParseState(st.hosts, None)
    ensures HostValue(d).Some? && '*' !in HostValue(d).value ==> Step(st, d) == ParseState(Emit(st), Some(NewHost(HostValue(d).value)))
  {
  }

  /** The alias of the open block, when the next Host line does not discard it. */
  function OpenAlias(st: ParseState, ds: seq<Option<(string, string)>>): seq<string>
  {
    if st.current.Some? && !NextHostIsWildcard(ds) then [st.current.value.alias] else []
  }

  /** The open block is emitted unless the next Host line is a wildcard; later blocks follow in order. */
  lemma {:induction false} AliasesFrom(st: ParseState, ds: seq<Option<(string, string)>>)
    ensures Aliases(Emit(Fold(st, ds))) == Aliases(st.hosts) + OpenAlias(st, ds) + HostAliases(ds)
    decreases |ds|
  {
    if ds == [] {
      var cur := if st.current.Some? then [st.current.value] else [];
      AliasesAppend(st.hosts, cur);
    } else {
      var next := Step(st, ds[0]);
      assert Fold(st, ds) == Fold(next, ds[1..]);
      AliasesFrom(next, ds[1..]);
      StepAliases(st, ds);
    }
  }

  /** One directive moves its share of the aliases from "still to come" to "open or emitted". */
  lemma StepAliases(st: ParseState, ds: seq<Option<(string, string)>>)
    requires ds != []
    ensures var next := Step(st, ds[0]);
      Aliases(next.hosts) + OpenAlias(next, ds[1..]) + HostAliases(ds[1..])
      == Aliases(st.hosts) + OpenAlias(st, ds) + HostAliases(ds)
  {
    if HostValue(ds[0]).None? {
      OtherLineAliases(st, ds);
    } else if '*' in HostValue(ds[0]).value {
      WildcardLineAliases(st, ds);
    } else {
      HostLineAliases(st, ds);
      var next := Step(st, ds[0]);
      var done, open, later := Aliases(st.hosts), OpenAlias(st, ds), OpenAlias(next, ds[1..]);
      assert done + open + later + HostAliases(ds[1..]) == done + open + (later + HostAliases(ds[1..]));
    }
  }

  lemma OtherLineAliases(st: ParseState, ds: seq<Option<(string, string)>>)
    requires ds != [] && HostValue(ds[0]).None?
    ensures var next := Step(st, ds[0]);
      && next.hosts == st.hosts
      && OpenAlias(next, ds[1..]) == OpenAlias(st, ds)
      && HostAliases(ds[1..]) == HostAliases(ds)
  {
    StepEffect(st, ds[0]);
  }

  lemma WildcardLineAliases(st: ParseState, ds: seq<Option<(string, string)>>)
    requires ds != [] && HostValue(ds[0]).Some? && '*' in HostValue(ds[0]).value
    ensures var next := Step(st, ds[0]);
      && next.hosts == st.hosts
      && OpenAlias(next, ds[1..]) == [] == OpenAlias(st, ds)
      && HostAliases(ds[1..]) == HostAliases(ds)
  {
    StepEffect(st, ds[0]);
  }

  lemma HostLineAliases(st: ParseState, ds: seq<Option<(string, string)>>)
    requires ds != [] && HostValue(ds[0]).Some? && '*' !in HostValue(ds[0]).value
    ensures var next := Step(st, ds[0]);
      && Aliases(next.hosts) == Aliases(st.hosts) + OpenAlias(st, ds)
      && HostAliases(ds) == OpenAlias(next, ds[1..]) + HostAliases(ds[1..])
  {
    StepEffect(st, ds[0]);
    var v := HostValue(ds[0]).value;
    assert !NextHostIsWildcard(ds);
    assert NewHost(v).alias == v;
    var cur := if st.current.Some? then [st.current.value] else [];
    AliasesAppend(st.hosts, cur);
    assert Aliases(cur) == OpenAlias(st, ds) by {
      if st.current.Some? {
        assert cur[1..] == [];
      }
    }
  }

  /** Hosts come out in the order of their Host lines, as HostAliases reads them. */
  lemma ParsedAliases(lines: seq<string>)
    ensures Aliases(ParseConfig(lines)) == HostAliases(Lex(lines))
  {
    AliasesFrom(Start, Lex(lines));
  }

  /** Every Host line among the directives is a wildcard pattern (there may be none). */
  predicate OnlyWildcardHosts(ds: seq<Option<(string, string)>>)
  {
    forall i :: 0 <= i < |ds| ==> HostValue(ds[i]).Some? ==> '*' in HostValue(ds[i]).value
  }

  /**
   * With no open block, lines other than non-wildcard Host lines change
   * nothing: directives are dropped and a wildcard Host opens no block.
   */
  lemma {:induction false} NoBlockIgnoresDirectives(hosts: seq<SSHHost>, ds: seq<Option<(string, string)>>)
    requires OnlyWildcardHosts(ds)
    ensures Fold(ParseState(hosts, None), ds) == ParseState(hosts, None)
    decreases |ds|
  {
    if ds != [] {
      assert HostValue(ds[0]).Some? ==> '*' in HostValue(ds[0]).value;
      assert OnlyWildcardHosts(ds[1..]) by {
        forall i | 0 <= i < |ds[1..]|
          ensures HostValue(ds[1..][i]).Some? ==> '*' in HostValue(ds[1..][i]).value
        {
          assert ds[1..][i] == ds[i + 1];
        }
      }
      NoBlockIgnoresDirectives(hosts, ds[1..]);
    }
  }

  /**
   * Lines before the first non-wildcard Host line are ignored, including
   * `Host *` blocks of global defaults.
   */
  lemma PreambleIgnored(pre: seq<string>, rest: seq<string>)
    requires OnlyWildcardHosts(Lex(pre))
    ensures ParseConfig(pre + rest) == ParseConfig(rest)
  {
    LexAppend(pre, rest);
    FoldAppend(Start, Lex(pre), Lex(rest));
    NoBlockIgnoresDirectives([], Lex(pre));
  }

  /** The forwards a run of directives adds, in file order. */
  function BlockForwards(ds: seq<Option<(string, string)>>): seq<PortForward>
  {
    if ds == [] then []
    else
      var fwd := if ds[0].Some? then DirectiveForward(KeywordOf(ds[0].value.0), ds[0].value.1) else None;
      (if fwd.Some? then [fwd.value] else []) + BlockForwards(ds[1..])
  }

  /** The value of the last directive with this keyword, or `default` when there is none. */
  function LastSetting(ds: seq<Option<(string, string)>>, kw: Keyword, default: string): string
  {
    if ds == [] then default
    else if ds[|ds| - 1].Some? && KeywordOf(ds[|ds| - 1].value.0) == kw then ds[|ds| - 1].value.1
    else LastSetting(ds[..|ds| - 1], kw, default)
  }

  /**
   * Inside one host block: the block stays open, nothing is emitted, the
   * alias stays, later HostName/User/Port lines overwrite earlier ones and
   * accepted forwards accumulate in file order.
   */
  lemma {:induction false} BlockSettings(hosts: seq<SSHHost>, h: SSHHost, ds: seq<Option<(string, string)>>)
    requires NoHostLine(ds)
    ensures var st := Fold(ParseState(hosts, Some(h)), ds);
      && st.hosts == hosts && st.current.Some?
      && st.current.value.alias == h.alias
      && st.current.value.hostName == LastSetting(ds, HostNameKey, h.hostName)
      && st.current.value.user == LastSetting(ds, UserKey, h.user)
      && st.current.value.port == LastSetting(ds, PortKey, h.port)
      && st.current.value.forwards == h.forwards + BlockForwards(ds)
  {
    if ds != [] {
      var init := ds[..|ds| - 1];
      var last := ds[|ds| - 1];
      assert ds == init + [last];
      assert HostValue(last).None?;
      assert NoHostLine(init) by {
        forall i | 0 <= i < |init|
          ensures HostValue(init[i]).None?
        {
          assert init[i] == ds[i];
        }
      }
      BlockSettings(hosts, h, init);
      var mid := Fold(ParseState(hosts, Some(h)), init);
      assert Fold(ParseState(hosts, Some(h)), ds) == Step(mid, last) by {
        FoldAppend(ParseState(hosts, Some(h)), init, [last]);
        assert [last][1..] == [];
      }
      assert BlockForwards(ds) == BlockForwards(init) + BlockForwards([last]) by {
        BlockForwardsAppend(init, [last]);
      }
      BlockStep(mid, last);
      LastSettingStep(init, last, HostNameKey, h.hostName);
      LastSettingStep(init, last, UserKey, h.user);
      LastSettingStep(init, last, PortKey, h.port);
    }
  }

  /** The last setting after one more directive: that directive's value when its keyword matches. */
  lemma LastSettingStep(init: seq<Option<(string, string)>>, d: Option<(string, string)>, kw: Keyword, default: string)
    ensures LastSetting(init + [d], kw, default)
      == if d.Some? && KeywordOf(d.value.0) == kw then d.value.1 else LastSetting(init, kw, default)
  {
    assert (init + [d])[..|init|] == init;
  }

  /** One non-Host directive inside an open block: it sets one field or adds its forward. */
  lemma BlockStep(st: ParseState, d: Option<(string, string)>)
    requires st.current.Some? && HostValue(d).None?
    ensures var next := Step(st, d); var c := st.current.value;
      && next.hosts == st.hosts && next.current.Some?
      && next.current.value.alias == c.alias
      && next.current.value.hostName == (if d.Some? && KeywordOf(d.value.0) == HostNameKey then d.value.1 else c.hostName)
      && next.current.value.user == (if d.Some? && KeywordOf(d.value.0) == UserKey then d.value.1 else c.user)
      && next.current.value.port == (if d.Some? && KeywordOf(d.value.0) == PortKey then d.value.1 else c.port)
      && next.current.value.forwards == c.forwards + BlockForwards([d])
  {
    assert [d][1..] == [];
  }

  lemma {:induction false} BlockForwardsAppend(a: seq<Option<(string, string)>>, b: seq<Option<(string, string)>>)
    ensures BlockForwards(a + b) == BlockForwards(a) + BlockForwards(b)
  {
    if a == [] {
      assert a + b == b;
    } else {
      assert (a + b)[1..] == a[1..] + b;
      BlockForwardsAppend(a[1..], b);
    }
  }

  /** The parser only ever produces "L", "R" and "D" forwards. */
  predicate Recognised(f: PortForward)
  {
    f.kind == "L" || f.kind == "R" || f.kind == "D"
  }

  predicate AllRecognised(fs: seq<PortForward>)
  {
    forall i :: 0 <= i < |fs| ==> Recognised(fs[i])
  }

  predicate StateRecognised(st: ParseState)
  {
    && (forall i :: 0 <= i < |st.hosts| ==> AllRecognised(st.hosts[i].forwards))
    && (st.current.Some? ==> AllRecognised(st.current.value.forwards))
  }

  lemma {:induction false} FoldRecognised(st: ParseState, ds: seq<Option<(string, string)>>)
    requires StateRecognised(st)
    ensures StateRecognised(Fold(st, ds))
    decreases |ds|
  {
    if ds != [] {
      var next := Step(st, ds[0]);
      assert StateRecognised(next) by {
        if st.current.Some? && ds[0].Some? {
          var h := st.current.value;
          var fwd := DirectiveForward(KeywordOf(ds[0].value.0), ds[0].value.1);
          assert fwd.Some? ==> Recognised(fwd.value);
        }
      }
      FoldRecognised(next, ds[1..]);
    }
  }

  // ---------------------------------------------------------------------------
  // ssh arguments and the menu tag
  // ---------------------------------------------------------------------------

  /** The flag pair for one forward; unknown kinds give nothing. */
  function ForwardFlag(f: PortForward): seq<string>
  {
    if f.kind == "L" then ["-L", f.localPort + ":" + f.remoteAddr]
    else if f.kind == "R" then ["-R", f.localPort + ":" + f.remoteAddr]
    else if f.kind == "D" then ["-D", f.localPort]
    else []
  }

  function RecognisedCount(fs: seq<PortForward>): (n: nat)
    ensures n <= |fs|
    ensures AllRecognised(fs) ==> n == |fs|
  {
    if fs == [] then 0 else (if Recognised(fs[0]) then 1 else 0) + RecognisedCount(fs[1..])
  }

  /** The flags for a list of forwards, in list order. */
  function ForwardFlags(fs: seq<PortForward>): (r: seq<string>)
    ensures |r| == 2 * RecognisedCount(fs)
  {
    if fs == [] then [] else ForwardFlag(fs[0]) + ForwardFlags(fs[1..])
  }

  /** buildSSHArgs: the forward flags followed by the alias. */
  function BuildSSHArgs(host: SSHHost): (args: seq<string>)
    ensures |args| == 2 * RecognisedCount(host.forwards) + 1
    ensures args[|args| - 1] == host.alias
  {
    ForwardFlags(host.forwards) + [host.alias]
  }

  /** When every forward is recognised, forward i sits at positions 2i and 2i+1 of the arguments. */
  lemma {:induction false} ArgsPositional(host: SSHHost, i: nat)
    requires AllRecognised(host.forwards) && i < |host.forwards|
    ensures var f := host.forwards[i]; var args := BuildSSHArgs(host);
      args[2 * i .. 2 * i + 2] == ForwardFlag(f)
  {
    FlagsPositional(host.forwards, i);
  }

  lemma {:induction false} FlagsPositional(fs: seq<PortForward>, i: nat)
    requires AllRecognised(fs) && i < |fs|
    ensures |ForwardFlags(fs)| == 2 * |fs|
    ensures ForwardFlags(fs)[2 * i .. 2 * i + 2] == ForwardFlag(fs[i])
  {
    assert |ForwardFlag(fs[0])| == 2;
    if i > 0 {
      assert AllRecognised(fs[1..]);
      FlagsPositional(fs[1..], i - 1);
      assert ForwardFlags(fs)[2 * i .. 2 * i + 2] == ForwardFlags(fs[1..])[2 * (i - 1) .. 2 * (i - 1) + 2];
    }
  }

  /** One menu entry per recognised forward. */
  function ForwardEntry(f: PortForward): seq<string>
  {
    if f.kind == "L" then ["L:" + f.localPort + "\U{2192}" + f.remoteAddr]
    else if f.kind == "R" then ["R:" + f.localPort + "\U{2192}" + f.remoteAddr]
    else if f.kind == "D" then ["D:" + f.localPort]
    else []
  }

  function ForwardEntries(fs: seq<PortForward>): (r: seq<string>)
    ensures |r| == RecognisedCount(fs)
  {
    if fs == [] then [] else ForwardEntry(fs[0]) + ForwardEntries(fs[1..])
  }

  /** displayForwards: the empty tag for no forwards, else " [" entries joined by ", " "]". */
  function DisplayForwards(fs: seq<PortForward>): (r: string)
    ensures r == "" <==> fs == []
    ensures fs != [] ==> HasPrefix(r, " [") && r[|r| - 1] == ']'
  {
    if fs == [] then "" else " [" + Join(ForwardEntries(fs), ", ") + "]"
  }

  /** The entries of the tag follow the forwards' order: entry i describes forward i. */
  lemma {:induction false} EntriesInOrder(fs: seq<PortForward>, i: nat)
    requires AllRecognised(fs) && i < |fs|
    ensures |ForwardEntries(fs)| == |fs|
    ensures ForwardEntries(fs)[i] == ForwardEntry(fs[i])[0]
  {
    if i > 0 {
      assert AllRecognised(fs[1..]);
      EntriesInOrder(fs[1..], i - 1);
    }
  }
}
