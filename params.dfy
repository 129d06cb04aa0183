/** Configuration intake of the FILEIO backend: the parameter text written to
    the device's configfs "control" attribute is cut into tokens by
    strsep(",\n"), each token is matched against "fd_dev_name=%s" and
    "fd_dev_size=%s", and the recognised ones update the device's name, size
    and flags (fd_set_configfs_dev_params).  Also the completeness check
    (fd_check_configfs_dev_params) and the status text
    (fd_show_configfs_dev_params).  This module holds the specification as
    functions over values; the imperative strsep loop that updates a device in
    place is FileDevice.SetConfigfsDevParams, proved against SetParams. */
module FileParams {
  import opened Kernel
  import opened Kstrtox

  /** Size of the fd_dev_name buffer, terminating NUL included. */
  const FD_MAX_DEV_NAME: nat := 256

  /** The bits of fbd_flags: FBDF_HAS_PATH and FBDF_HAS_SIZE. */
  datatype Flag = HasPath | HasSize

  /** The fields of a device that configuration writes. */
  datatype DevParams = DevParams(name: string, size: nat, flags: set<Flag>)

  // ---------------------------------------------------------------------------
  // kstrdup(page): the C string the page holds

  predicate NoNul(s: string) {
    forall i :: 0 <= i < |s| ==> s[i] != '\0'
  }

  /** The C string a buffer holds: its characters up to the first NUL. */
  function CStr(s: string): (c: string)
    ensures |c| <= |s| && c == s[..|c|]
    ensures NoNul(c)
    ensures |c| < |s| ==> s[|c|] == '\0'
  {
    if s == [] || s[0] == '\0' then []
    else
      var c := [s[0]] + CStr(s[1..]);
      assert c == s[..|c|];
      c
  }

  /** A buffer whose text holds no NUL is that whole text, and anything after
      a NUL is not part of it. */
  lemma {:induction false} CStrEndsAtNul(s: string, t: string)
    requires NoNul(s)
    ensures CStr(s) == s
    ensures CStr(s + ['\0'] + t) == s
  {
    var w := s + ['\0'] + t;
    if s == [] {
      assert w[0] == '\0';
    } else {
      CStrEndsAtNul(s[1..], t);
      assert w[0] == s[0] && w[1..] == s[1..] + ['\0'] + t;
      assert s == [s[0]] + s[1..];
    }
  }

  // ---------------------------------------------------------------------------
  // strsep(&opts, ",\n")

  predicate IsSep(c: char) {
    c == ',' || c == '\n'
  }

  predicate NoSep(t: string) {
    forall i :: 0 <= i < |t| ==> !IsSep(t[i])
  }

  /** The separator characters of s, in order. */
  function Seps(s: string): string {
    if s == [] then [] else (if IsSep(s[0]) then [s[0]] else []) + Seps(s[1..])
  }

  /** Pieces glued back together with the given separators between them. */
  function Join(pieces: seq<string>, seps: string): string
    requires |pieces| == |seps| + 1
    decreases |seps|
  {
    if seps == [] then pieces[0] else pieces[0] + [seps[0]] + Join(pieces[1..], seps[1..])
  }

  /** r is a cut of s at its separators: one more piece than s has
      separators, none holding a separator, and gluing them back with s's
      separators gives s again. */
  predicate Pieces(r: seq<string>, s: string) {
    && |r| == |Seps(s)| + 1
    && (forall k :: 0 <= k < |r| ==> NoSep(r[k]))
    && Join(r, Seps(s)) == s
  }

  /** All the strings repeated strsep calls return for s, empty ones included. */
  function Split(s: string): (r: seq<string>)
    ensures Pieces(r, s)
  {
    if s == [] then [""]
    else
      var t := Split(s[1..]);
      if IsSep(s[0]) then SepStep(s, t); [""] + t
      else CharStep(s, t); [[s[0]] + t[0]] + t[1..]
  }

  /** A leading separator ends an empty first piece. */
  lemma SepStep(s: string, t: seq<string>)
    requires s != [] && IsSep(s[0]) && Pieces(t, s[1..])
    ensures Pieces([""] + t, s)
  {
    var r := [""] + t;
    var seps := Seps(s[1..]);
    assert Seps(s) == [s[0]] + seps;
    assert r[1..] == t;
    assert forall k :: 1 <= k < |r| ==> r[k] == t[k - 1];
    assert Join(r, Seps(s)) == [s[0]] + Join(t, seps);
  }

  /** Any other leading character joins the first piece of the rest. */
  lemma CharStep(s: string, t: seq<string>)
    requires s != [] && !IsSep(s[0]) && Pieces(t, s[1..])
    ensures Pieces([[s[0]] + t[0]] + t[1..], s)
  {
    var r := [[s[0]] + t[0]] + t[1..];
    var seps := Seps(s[1..]);
    assert Seps(s) == seps;
    assert forall k :: 1 <= k < |r| ==> r[k] == t[k];
    assert NoSep(r[0]);
    JoinFirst(s[0], t, seps);
  }

  /** Putting a character in front of the first piece puts it in front of the join. */
  lemma JoinFirst(c: char, t: seq<string>, seps: string)
    requires |t| == |seps| + 1
    ensures Join([[c] + t[0]] + t[1..], seps) == [c] + Join(t, seps)
  {
    var r := [[c] + t[0]] + t[1..];
    if seps != [] {
      assert r[1..] == t[1..];
      assert r[0] + [seps[0]] + Join(r[1..], seps[1..]) == [c] + (t[0] + [seps[0]] + Join(t[1..], seps[1..]));
    }
  }

  /** Index of the first separator of s, or |s| when there is none. */
  function FirstSep(s: string): (i: nat)
    ensures i <= |s|
    ensures NoSep(s[..i])
    ensures i < |s| ==> IsSep(s[i])
  {
    if s == [] || IsSep(s[0]) then 0
    else
      var j := FirstSep(s[1..]);
      assert s[..j + 1] == [s[0]] + s[1..][..j];
      1 + j
  }

  /** One strsep(&opts, ",\n") call on a non-NULL opts: the token it returns
      and what opts holds afterwards (None for NULL). */
  function StrSep(s: string): (r: (string, Option<string>))
    ensures NoSep(r.0)
    ensures r.1.None? ==> r.0 == s
    ensures r.1.Some? ==>
      |r.0| < |s| && IsSep(s[|r.0|]) && s == r.0 + [s[|r.0|]] + r.1.value
    ensures r.1.Some? ==> |r.1.value| < |s|
  {
    var i := FirstSep(s);
    if i < |s| then (s[..i], Some(s[i + 1..])) else (s, None)
  }

  /** Repeated strsep calls produce exactly Split. */
  lemma {:induction false} StrSepSplits(s: string)
    ensures Split(s) == [StrSep(s).0] + (if StrSep(s).1.Some? then Split(StrSep(s).1.value) else [])
  {
    if s != [] && !IsSep(s[0]) {
      StrSepSplits(s[1..]);
      var i := FirstSep(s);
      assert i == 1 + FirstSep(s[1..]);
      assert s[..i] == [s[0]] + s[1..][..i - 1];
      if i < |s| {
        assert s[i + 1..] == s[1..][i..];
      }
    }
  }

  // ---------------------------------------------------------------------------
  // match_token against "fd_dev_name=%s" and "fd_dev_size=%s"

  const DevNameKey: string := "fd_dev_name="
  const DevSizeKey: string := "fd_dev_size="

  /** Opt_fd_dev_name, Opt_fd_dev_size with the %s argument, or Opt_err. */
  datatype Token = DevName(arg: string) | DevSize(arg: string) | Unknown

  /** A token matches a key when it starts with the key and "%s" then takes
      the whole, non-empty, remainder. */
  function MatchToken(t: string): (r: Token)
    ensures r.DevName? <==> |t| > |DevNameKey| && t[..|DevNameKey|] == DevNameKey
    ensures r.DevSize? <==> |t| > |DevSizeKey| && t[..|DevSizeKey|] == DevSizeKey
    ensures r.DevName? ==> t == DevNameKey + r.arg && r.arg != []
    ensures r.DevSize? ==> t == DevSizeKey + r.arg && r.arg != []
  {
    assert DevNameKey[7] != DevSizeKey[7];
    if |t| > |DevNameKey| && t[..|DevNameKey|] == DevNameKey then DevName(t[|DevNameKey|..])
    else if |t| > |DevSizeKey| && t[..|DevSizeKey|] == DevSizeKey then DevSize(t[|DevSizeKey|..])
    else Unknown
  }

  /** match_strlcpy into the FD_MAX_DEV_NAME buffer: the argument, silently
      cut to FD_MAX_DEV_NAME - 1 characters. */
  function NameCopy(arg: string): (name: string)
    ensures |name| < FD_MAX_DEV_NAME
    ensures |name| <= |arg| && name == arg[..|name|]
    ensures |arg| < FD_MAX_DEV_NAME ==> name == arg
    ensures |arg| >= FD_MAX_DEV_NAME ==> |name| == FD_MAX_DEV_NAME - 1
  {
    if |arg| < FD_MAX_DEV_NAME then arg else arg[..FD_MAX_DEV_NAME - 1]
  }

  // ---------------------------------------------------------------------------
  // The token loop of fd_set_configfs_dev_params

  /** The loop's state: the device fields, the running ret, and how many
      match_strdup calls were made so far (which selects the allocation
      outcome from the oracle set of failing calls). */
  datatype ParseState = ParseState(params: DevParams, ret: int, dupCalls: nat)

  /** Continue with the next token, or "goto out". */
  datatype Outcome = Continue(st: ParseState) | Stop(st: ParseState)

  predicate KnownRet(ret: int) {
    ret == 0 || ret == -ENOMEM || ret == -EINVAL || ret == -ERANGE
  }

  /** Invariants of the fields configuration writes. */
  predicate WellFormed(p: DevParams) {
    |p.name| < FD_MAX_DEV_NAME && p.size <= ULLONG_MAX
  }

  /** One non-empty token of the switch.  dupFail holds the numbers of the
      match_strdup calls whose allocation fails. */
  function ApplyToken(t: string, dupFail: set<nat>, st: ParseState): (o: Outcome)
    ensures st.params.flags <= o.st.params.flags
    ensures MatchToken(t).Unknown? ==> o == Continue(st)
    ensures MatchToken(t).DevName? ==>
      o == Continue(st.(params := st.params.(name := NameCopy(MatchToken(t).arg),
                                            flags := st.params.flags + {HasPath})))
    ensures MatchToken(t).DevSize? && st.dupCalls in dupFail ==>
      o == Continue(st.(ret := -ENOMEM, dupCalls := st.dupCalls + 1))
    ensures MatchToken(t).DevSize? && st.dupCalls !in dupFail ==>
      match StrictStrtoull(MatchToken(t).arg)
      case Ok(v) =>
        o == Continue(ParseState(st.params.(size := v, flags := st.params.flags + {HasSize}),
                                 0, st.dupCalls + 1))
      case Err(e) =>
        o == Stop(st.(ret := e, dupCalls := st.dupCalls + 1))
    ensures o.Stop? ==> o.st.params == st.params && (o.st.ret == -EINVAL || o.st.ret == -ERANGE)
    ensures KnownRet(st.ret) ==> KnownRet(o.st.ret)
    ensures WellFormed(st.params) ==> WellFormed(o.st.params)
  {
    match MatchToken(t)
    case DevName(arg) =>
      // match_strlcpy always writes the (cut) copy and returns the argument's length
      var p := st.params.(name := NameCopy(arg));
      if |arg| == 0 then Continue(st.(params := p, ret := -EINVAL))
      else Continue(st.(params := p.(flags := p.flags + {HasPath})))
    case DevSize(arg) =>
      if st.dupCalls in dupFail then Continue(st.(ret := -ENOMEM, dupCalls := st.dupCalls + 1))
      else
        (match StrictStrtoull(arg)
         case Ok(v) =>
           Continue(ParseState(st.params.(size := v, flags := st.params.flags + {HasSize}),
                               0, st.dupCalls + 1))
         case Err(e) => Stop(st.(ret := e, dupCalls := st.dupCalls + 1)))
    case Unknown => Continue(st)
  }

  /** The whole token loop: empty tokens are skipped, the first invalid size
      stops it. */
  function ApplyTokens(toks: seq<string>, dupFail: set<nat>, st: ParseState): (o: Outcome)
    ensures st.params.flags <= o.st.params.flags
    ensures KnownRet(st.ret) ==> KnownRet(o.st.ret)
    ensures WellFormed(st.params) ==> WellFormed(o.st.params)
    ensures o.Stop? ==> o.st.ret == -EINVAL || o.st.ret == -ERANGE
    decreases |toks|
  {
    if toks == [] then Continue(st)
    else if toks[0] == [] then ApplyTokens(toks[1..], dupFail, st)
    else
      match ApplyToken(toks[0], dupFail, st)
      case Stop(s) => Stop(s)
      case Continue(s) => ApplyTokens(toks[1..], dupFail, s)
  }

  /** Without fd_dev_name tokens the loop leaves the name as it was. */
  lemma {:induction false} NameKeptWithoutNameTokens(toks: seq<string>, dupFail: set<nat>, st: ParseState)
    requires forall k :: 0 <= k < |toks| ==> !MatchToken(toks[k]).DevName?
    ensures ApplyTokens(toks, dupFail, st).st.params.name == st.params.name
    decreases |toks|
  {
    if toks != [] {
      assert !MatchToken(toks[0]).DevName?;
      if toks[0] == [] {
        NameKeptWithoutNameTokens(toks[1..], dupFail, st);
      } else {
        match ApplyToken(toks[0], dupFail, st)
        case Stop(s) =>
        case Continue(s) => NameKeptWithoutNameTokens(toks[1..], dupFail, s);
      }
    }
  }

  /** Without fd_dev_size tokens the loop runs to the end (nothing can stop
      it) and leaves the size and ret as they were. */
  lemma {:induction false} SizeKeptWithoutSizeTokens(toks: seq<string>, dupFail: set<nat>, st: ParseState)
    requires forall k :: 0 <= k < |toks| ==> !MatchToken(toks[k]).DevSize?
    ensures var o := ApplyTokens(toks, dupFail, st);
      o.Continue? && o.st.params.size == st.params.size && o.st.ret == st.ret
    decreases |toks|
  {
    if toks != [] {
      assert !MatchToken(toks[0]).DevSize?;
      if toks[0] == [] {
        SizeKeptWithoutSizeTokens(toks[1..], dupFail, st);
      } else {
        SizeKeptWithoutSizeTokens(toks[1..], dupFail, ApplyToken(toks[0], dupFail, st).st);
      }
    }
  }

  /** What fd_set_configfs_dev_params leaves in the device, and its return:
      count when the final ret is 0, otherwise that negative ret.  pageDupOk
      is the outcome of the kstrdup of the page. */
  datatype SetResult = SetResult(params: DevParams, ret: int)

  function SetParams(p: DevParams, page: string, count: int, pageDupOk: bool, dupFail: set<nat>): (r: SetResult)
    ensures r.ret == count || r.ret == -ENOMEM || r.ret == -EINVAL || r.ret == -ERANGE
    ensures p.flags <= r.params.flags
    ensures WellFormed(p) ==> WellFormed(r.params)
    ensures !pageDupOk ==> r == SetResult(p, -ENOMEM)
    ensures pageDupOk ==>
      var o := ApplyTokens(Split(CStr(page)), dupFail, ParseState(p, 0, 0));
      r.params == o.st.params && r.ret == (if o.st.ret == 0 then count else o.st.ret)
  {
    if !pageDupOk then SetResult(p, -ENOMEM)
    else
      var o := ApplyTokens(Split(CStr(page)), dupFail, ParseState(p, 0, 0));
      SetResult(o.st.params, if o.st.ret == 0 then count else o.st.ret)
  }

  /** A parameter text without fd_dev_size tokens (names and unknown keys
      only) is accepted: the call returns count and leaves the size alone. */
  lemma NoSizeTokensReturnsCount(p: DevParams, page: string, count: int, dupFail: set<nat>)
    requires forall k :: 0 <= k < |Split(CStr(page))| ==> !MatchToken(Split(CStr(page))[k]).DevSize?
    ensures SetParams(p, page, count, true, dupFail).ret == count
    ensures SetParams(p, page, count, true, dupFail).params.size == p.size
  {
    SizeKeptWithoutSizeTokens(Split(CStr(page)), dupFail, ParseState(p, 0, 0));
  }

  /** The text ends at its first NUL, as kstrdup copies it: whatever follows
      a NUL has no effect. */
  lemma TextEndsAtNul(p: DevParams, s: string, t: string, count: int, pageDupOk: bool, dupFail: set<nat>)
    requires NoNul(s)
    ensures SetParams(p, s + ['\0'] + t, count, pageDupOk, dupFail) == SetParams(p, s, count, pageDupOk, dupFail)
  {
    CStrEndsAtNul(s, t);
  }

  /** The rest of the loop after a prefix of the tokens. */
  function Then(o: Outcome, rest: seq<string>, dupFail: set<nat>): Outcome {
    match o
    case Stop(_) => o
    case Continue(s) => ApplyTokens(rest, dupFail, s)
  }

  /** Running the loop over a + b is running it over a, then over b unless a
      stopped it. */
  lemma {:induction false} ApplyTokensAppend(a: seq<string>, b: seq<string>, dupFail: set<nat>, st: ParseState)
    ensures ApplyTokens(a + b, dupFail, st) == Then(ApplyTokens(a, dupFail, st), b, dupFail)
    decreases |a|
  {
    if a == [] {
      assert a + b == b;
    } else {
      assert (a + b)[0] == a[0];
      assert (a + b)[1..] == a[1..] + b;
      if a[0] == [] {
        ApplyTokensAppend(a[1..], b, dupFail, st);
      } else {
        match ApplyToken(a[0], dupFail, st)
        case Stop(s) =>
        case Continue(s) => ApplyTokensAppend(a[1..], b, dupFail, s);
      }
    }
  }

  /** One step of the loop: the first token, then the rest. */
  lemma ApplyTokensCons(t: string, rest: seq<string>, dupFail: set<nat>, st: ParseState)
    ensures ApplyTokens([t] + rest, dupFail, st) ==
      if t == [] then ApplyTokens(rest, dupFail, st) else Then(ApplyToken(t, dupFail, st), rest, dupFail)
  {
    assert ([t] + rest)[1..] == rest;
  }

  /** The token t, met after the tokens a, with the tokens b after it. */
  lemma {:induction false} TokenInContext(a: seq<string>, t: string, b: seq<string>, dupFail: set<nat>, st: ParseState)
    requires ApplyTokens(a, dupFail, st).Continue?
    ensures var s := ApplyTokens(a, dupFail, st).st;
      ApplyTokens(a + [t] + b, dupFail, st) ==
        if t == [] then ApplyTokens(b, dupFail, s) else Then(ApplyToken(t, dupFail, s), b, dupFail)
  {
    ApplyTokensAppend(a, [t] + b, dupFail, st);
    assert a + [t] + b == a + ([t] + b);
    assert ([t] + b)[1..] == b;
  }

  /** An empty token, or one matching neither key, changes nothing: the loop
      gives the same result as without it. */
  lemma IgnoredTokenChangesNothing(a: seq<string>, t: string, b: seq<string>, dupFail: set<nat>, st: ParseState)
    requires t == [] || MatchToken(t).Unknown?
    ensures ApplyTokens(a + [t] + b, dupFail, st) == ApplyTokens(a + b, dupFail, st)
  {
    ApplyTokensAppend(a, b, dupFail, st);
    ApplyTokensAppend(a, [t] + b, dupFail, st);
    assert a + [t] + b == a + ([t] + b);
    assert ([t] + b)[1..] == b;
  }

  /** An fd_dev_size value the parser refuses ends the loop: whatever tokens
      follow are not looked at, the size and HAS_SIZE stay as they were, and
      the parser's negative code is what the loop ends with. */
  lemma InvalidSizeStopsRest(a: seq<string>, t: string, b: seq<string>, dupFail: set<nat>, st: ParseState)
    requires ApplyTokens(a, dupFail, st).Continue?
    requires MatchToken(t).DevSize? && StrictStrtoull(MatchToken(t).arg).Err?
    requires ApplyTokens(a, dupFail, st).st.dupCalls !in dupFail
    ensures var s := ApplyTokens(a, dupFail, st).st;
      ApplyTokens(a + [t] + b, dupFail, st) ==
        Stop(s.(ret := StrictStrtoull(MatchToken(t).arg).code, dupCalls := s.dupCalls + 1))
  {
    TokenInContext(a, t, b, dupFail, st);
  }

  /** A failed match_strdup does not end the loop: it records -ENOMEM and the
      following tokens are processed as usual (a later valid size puts ret
      back to 0). */
  lemma AllocFailureDoesNotStop(a: seq<string>, t: string, b: seq<string>, dupFail: set<nat>, st: ParseState)
    requires ApplyTokens(a, dupFail, st).Continue?
    requires MatchToken(t).DevSize?
    requires ApplyTokens(a, dupFail, st).st.dupCalls in dupFail
    ensures var s := ApplyTokens(a, dupFail, st).st;
      ApplyTokens(a + [t] + b, dupFail, st) ==
        ApplyTokens(b, dupFail, s.(ret := -ENOMEM, dupCalls := s.dupCalls + 1))
  {
    TokenInContext(a, t, b, dupFail, st);
    DupFailureStep(t, dupFail, ApplyTokens(a, dupFail, st).st);
  }

  lemma DupFailureStep(t: string, dupFail: set<nat>, s: ParseState)
    requires MatchToken(t).DevSize? && s.dupCalls in dupFail
    ensures t != []
    ensures ApplyToken(t, dupFail, s) == Continue(s.(ret := -ENOMEM, dupCalls := s.dupCalls + 1))
  {
  }

  /** A recognised fd_dev_name token reached by the loop sets HAS_PATH for
      good, and when no later token names a device its (cut) argument is the
      device name the loop leaves. */
  lemma NameTokenSetsPath(a: seq<string>, t: string, b: seq<string>, dupFail: set<nat>, st: ParseState)
    requires ApplyTokens(a, dupFail, st).Continue?
    requires MatchToken(t).DevName?
    ensures HasPath in ApplyTokens(a + [t] + b, dupFail, st).st.params.flags
    ensures (forall k :: 0 <= k < |b| ==> !MatchToken(b[k]).DevName?) ==>
      ApplyTokens(a + [t] + b, dupFail, st).st.params.name == NameCopy(MatchToken(t).arg)
  {
    TokenInContext(a, t, b, dupFail, st);
    if forall k :: 0 <= k < |b| ==> !MatchToken(b[k]).DevName? {
      var s := ApplyToken(t, dupFail, ApplyTokens(a, dupFail, st).st);
      NameKeptWithoutNameTokens(b, dupFail, s.st);
    }
  }

  // ---------------------------------------------------------------------------
  // fd_check_configfs_dev_params and fd_show_configfs_dev_params

  /** The check fails with -EINVAL exactly when no path was configured; the
      size flag plays no part. */
  function CheckParams(flags: set<Flag>): (r: int)
    ensures r == 0 <==> HasPath in flags
    ensures r != 0 ==> r == -EINVAL
  {
    if HasPath !in flags then -EINVAL else 0
  }

  /** Whether a size was configured never changes the check's verdict. */
  lemma CheckIgnoresSize(flags: set<Flag>)
    ensures CheckParams(flags + {HasSize}) == CheckParams(flags - {HasSize}) == CheckParams(flags)
  {
  }

  /** A parameter text that names a device, and is not stopped by an invalid
      size before that, passes the check; the name it gave is shown verbatim
      in the status text when no later token renames the device. */
  lemma SetThenCheck(p: DevParams, page: string, count: int, dupFail: set<nat>,
                     a: seq<string>, t: string, b: seq<string>, id: nat)
    requires Split(CStr(page)) == a + [t] + b
    requires MatchToken(t).DevName?
    requires ApplyTokens(a, dupFail, ParseState(p, 0, 0)).Continue?
    ensures var r := SetParams(p, page, count, true, dupFail);
      CheckParams(r.params.flags) == 0
    ensures (forall k :: 0 <= k < |b| ==> !MatchToken(b[k]).DevName?) ==>
      var r := SetParams(p, page, count, true, dupFail);
      var at := NameOffset(id);
      ShowText(id, r.params.name, r.params.size)[at..at + |r.params.name|] == NameCopy(MatchToken(t).arg)
  {
    NameTokenSetsPath(a, t, b, dupFail, ParseState(p, 0, 0));
    var r := SetParams(p, page, count, true, dupFail);
    ShowLayout(id, r.params.name, r.params.size);
  }

  const ShowIdLabel: string := "TCM FILEIO ID: "
  const ShowFileLabel: string := "        File: "
  const ShowSizeLabel: string := "  Size: "
  const ShowModeTail: string := "  Mode: O_DSYNC\n"

  /** The text the two sprintf calls write; its length is the value returned. */
  function ShowText(id: nat, name: string, size: nat): (text: string)
    ensures |text| == NameOffset(id) + |name| + |ShowSizeLabel| + |Decimal(size)| + |ShowModeTail|
    ensures text[..|ShowIdLabel|] == ShowIdLabel
    ensures text[|text| - 1] == '\n'
  {
    Layout(ShowIdLabel, Decimal(id), ShowFileLabel, name, ShowSizeLabel, Decimal(size), ShowModeTail);
    ShowIdLabel + Decimal(id) + ShowFileLabel + name + ShowSizeLabel + Decimal(size) + ShowModeTail
  }

  function NameOffset(id: nat): nat {
    |ShowIdLabel| + |Decimal(id)| + |ShowFileLabel|
  }

  /** Where the id, the name and the size sit in the status text. */
  lemma ShowLayout(id: nat, name: string, size: nat)
    ensures var text := ShowText(id, name, size);
      var at := NameOffset(id);
      var sizeAt := at + |name| + |ShowSizeLabel|;
      && |text| == sizeAt + |Decimal(size)| + |ShowModeTail|
      && text[..|ShowIdLabel|] == ShowIdLabel
      && text[|ShowIdLabel|..|ShowIdLabel| + |Decimal(id)|] == Decimal(id)
      && text[at..at + |name|] == name
      && text[sizeAt..sizeAt + |Decimal(size)|] == Decimal(size)
  {
    Layout(ShowIdLabel, Decimal(id), ShowFileLabel, name, ShowSizeLabel, Decimal(size), ShowModeTail);
  }

  /** Slices of a concatenation of seven parts. */
  lemma Layout<T>(p: seq<T>, x: seq<T>, q: seq<T>, y: seq<T>, r: seq<T>, z: seq<T>, u: seq<T>)
    ensures var w := p + x + q + y + r + z + u;
      var at := |p| + |x| + |q|;
      var zAt := at + |y| + |r|;
      && |w| == zAt + |z| + |u|
      && w[..|p|] == p
      && w[|p|..|p| + |x|] == x
      && w[at..at + |y|] == y
      && w[zAt..zAt + |z|] == z
  {
    var w := p + x + q + y + r + z + u;
    assert w == p + x + (q + y + r + z + u);
    SliceOf(p, x, q + y + r + z + u);
    assert w == (p + x + q) + y + (r + z + u);
    SliceOf(p + x + q, y, r + z + u);
    assert w == (p + x + q + y + r) + z + u;
    SliceOf(p + x + q + y + r, z, u);
  }

  /** The status text shows the id and the size in a form the parser reads
      back to the same numbers, and the name verbatim. */
  lemma ShowFields(id: nat, name: string, size: nat)
    requires id <= ULLONG_MAX && size <= ULLONG_MAX
    ensures var text := ShowText(id, name, size);
      var at := NameOffset(id);
      var sizeAt := at + |name| + |ShowSizeLabel|;
      && text[..|ShowIdLabel|] == ShowIdLabel
      && StrictStrtoull(text[|ShowIdLabel|..|ShowIdLabel| + |Decimal(id)|]) == Ok(id)
      && text[at..at + |name|] == name
      && StrictStrtoull(text[sizeAt..sizeAt + |Decimal(size)|]) == Ok(size)
  {
    ShowLayout(id, name, size);
    DecimalRoundTrip(id);
    DecimalRoundTrip(size);
  }

  lemma SliceOf<T>(x: seq<T>, m: seq<T>, y: seq<T>)
    ensures (x + m + y)[..|x|] == x
    ensures (x + m + y)[|x|..|x| + |m|] == m
  {
  }
}
