/** The registration log of required policies: the last entry of each name counts. */
module PolicyLog {
  import opened Common
  import opened Whitespace

  const TOMBSTONE := "-"

  datatype Entry = Entry(name: string, source: string)

  predicate IsLower(c: char) {
    'a' <= c <= 'z' || '0' <= c <= '9' || c == '_'
  }

  predicate IsPolicyName(name: string) {
    1 <= |name| <= 128 && forall c | c in name :: IsLower(c) || c == '-'
  }

  predicate IsHookName(name: string) {
    1 <= |name| <= 128 && forall c | c in name :: IsLower(c)
  }

  /** A source identity: 36 characters in the shape of a lower-case UUID. */
  predicate IsSource(source: string) {
    |source| == 36 && forall i | 0 <= i < 36 ::
      if i == 8 || i == 13 || i == 18 || i == 23 then source[i] == '-'
      else '0' <= source[i] <= '9' || 'a' <= source[i] <= 'f'
  }

  /** Cuts an entry at its first '='. */
  function Split(text: string): Option<Entry> {
    if text == "" then None
    else if text[0] == '=' then Some(Entry("", text[1..]))
    else match Split(text[1..])
      case None => None
      case Some(e) => Some(Entry([text[0]] + e.name, e.source))
  }

  /** The entry, if it has a well-formed name; only such an entry can be attributed. */
  function Attributed(text: string): Option<Entry> {
    match Split(text)
    case None => None
    case Some(e) => if IsPolicyName(e.name) then Some(e) else None
  }

  predicate IsFor(text: string, name: string) {
    Attributed(text).Some? && Attributed(text).value.name == name
  }

  // ---- What an entry is ----

  /** A policy's name: 1 to 128 lower-case letters, digits, '_' and '-'. */
  predicate Name(s: string) {
    1 <= |s| <= 128 && forall c | c in s :: 'a' <= c <= 'z' || '0' <= c <= '9' || c == '_' || c == '-'
  }

  /** A hook's: the same without '-'. */
  predicate Hook(s: string) {
    1 <= |s| <= 128 && forall c | c in s :: 'a' <= c <= 'z' || '0' <= c <= '9' || c == '_'
  }

  predicate Hex(s: string, n: nat) {
    |s| == n && forall c | c in s :: '0' <= c <= '9' || 'a' <= c <= 'f'
  }

  /** The entry says, by name, what the source is. */
  predicate IsEntry(text: string, name: string, source: string) {
    Name(name) && text == name + "=" + source
  }

  lemma NamesAre(s: string)
    ensures IsPolicyName(s) <==> Name(s)
    ensures IsHookName(s) <==> Hook(s)
  {
  }

  /** An entry is cut at its first '='. */
  lemma {:induction false} SplitExactly(text: string)
    ensures Split(text) == None <==> '=' !in text
    ensures forall e :: Split(text) == Some(e) <==> text == e.name + "=" + e.source && '=' !in e.name
  {
    if text != "" {
      if text[0] != '=' { SplitExactly(text[1..]); }
      forall e ensures Split(text) == Some(e) <==> text == e.name + "=" + e.source && '=' !in e.name {
        if text[0] == '=' {
          SplitHere(text, e);
        } else {
          SplitLater(text, e);
          if e.name != "" {
            var tail := Entry(e.name[1..], e.source);
            assert Split(text[1..]) == Some(tail) <==> text[1..] == tail.name + "=" + tail.source && '=' !in tail.name;
            assert e.name == [e.name[0]] + tail.name;
          }
          assert Split(text[1..]).Some? ==> ([text[0]] + Split(text[1..]).value.name)[1..] == Split(text[1..]).value.name;
        }
      }
    }
  }

  lemma SplitHere(text: string, e: Entry)
    requires text != "" && text[0] == '='
    ensures text == e.name + "=" + e.source && '=' !in e.name <==> e == Entry("", text[1..])
  {
    if e.name != "" { FirstChar(e.name, "=" + e.source, text); }
    assert e.name == "" && text == e.name + "=" + e.source ==> text[1..] == e.source;
    assert text == "" + "=" + text[1..];
  }

  lemma FirstChar(name: string, rest: string, text: string)
    requires name != ""
    ensures name[0] in name && (text == name + rest ==> text != "" && text[0] == name[0])
  {
  }

  lemma SplitLater(text: string, e: Entry)
    requires text != "" && text[0] != '='
    ensures text == e.name + "=" + e.source && '=' !in e.name <==>
            e.name != "" && e.name[0] == text[0] && text[1..] == e.name[1..] + "=" + e.source && '=' !in e.name[1..]
  {
    assert "" + "=" + e.source == "=" + e.source;
    if e.name != "" {
      FirstChar(e.name, "=" + e.source, text);
      assert e.name == [e.name[0]] + e.name[1..] && text == [text[0]] + text[1..];
      assert e.name + "=" + e.source == [e.name[0]] + (e.name[1..] + "=" + e.source);
      assert (e.name + "=" + e.source)[1..] == e.name[1..] + "=" + e.source;
      assert '=' in e.name <==> e.name[0] == '=' || '=' in e.name[1..];
    }
  }

  /** An entry is attributed exactly when it is a name, '=', and a source. */
  lemma AttributedExactly(text: string, name: string, source: string)
    ensures Attributed(text) == Some(Entry(name, source)) <==> IsEntry(text, name, source)
  {
    SplitExactly(text);
    NamesAre(name);
    assert Name(name) ==> '=' !in name;
    hide Split, IsPolicyName, Name;
    assert Split(text) == Some(Entry(name, source)) <==> text == name + "=" + source && '=' !in name;
  }

  /** A source is five runs of hexadecimal digits, of 8, 4, 4, 4 and 12, with '-' between. */
  lemma SourceParts(s: string)
    ensures IsSource(s) <==>
            exists a, b, c, d, e :: Hex(a, 8) && Hex(b, 4) && Hex(c, 4) && Hex(d, 4) && Hex(e, 12)
                                    && s == a + "-" + b + "-" + c + "-" + d + "-" + e
  {
    if IsSource(s) {
      var a, b, c, d, e := s[..8], s[9..13], s[14..18], s[19..23], s[24..];
      assert s == a + "-" + b + "-" + c + "-" + d + "-" + e;
      assert Hex(a, 8) && Hex(b, 4) && Hex(c, 4) && Hex(d, 4) && Hex(e, 12);
    }
    if a, b, c, d, e :| Hex(a, 8) && Hex(b, 4) && Hex(c, 4) && Hex(d, 4) && Hex(e, 12) && s == a + "-" + b + "-" + c + "-" + d + "-" + e {
      SourceOf(a, b, c, d, e);
    }
  }

  lemma SourceOf(a: string, b: string, c: string, d: string, e: string)
    requires Hex(a, 8) && Hex(b, 4) && Hex(c, 4) && Hex(d, 4) && Hex(e, 12)
    ensures IsSource(a + "-" + b + "-" + c + "-" + d + "-" + e)
  {
    var s := a + "-" + b + "-" + c + "-" + d + "-" + e;
    forall i | 0 <= i < 36
      ensures if i == 8 || i == 13 || i == 18 || i == 23 then s[i] == '-' else '0' <= s[i] <= '9' || 'a' <= s[i] <= 'f'
    {
      assert i < 8 ==> s[i] in a;
      assert 9 <= i < 13 ==> s[i] == b[i - 9] && b[i - 9] in b;
      assert 14 <= i < 18 ==> s[i] == c[i - 14] && c[i - 14] in c;
      assert 19 <= i < 23 ==> s[i] == d[i - 19] && d[i - 19] in d;
      assert 24 <= i < 36 ==> s[i] == e[i - 24] && e[i - 24] in e;
    }
  }

  /** What the last entry of that name says. */
  function Latest(log: seq<string>, name: string): Option<string> {
    if log == [] then None
    else if IsFor(log[|log| - 1], name) then Some(Attributed(log[|log| - 1]).value.source)
    else Latest(log[..|log| - 1], name)
  }

  /** The registered policies and their sources; None when an entry cannot be attributed. */
  function Registered(log: seq<string>): Option<map<string, string>> {
    if log == [] then Some(map[])
    else match Registered(log[..|log| - 1])
      case None => None
      case Some(policies) => Register(policies, log[|log| - 1])
  }

  function Register(policies: map<string, string>, text: string): Option<map<string, string>> {
    match Attributed(text)
    case None => None
    case Some(e) => Some(if e.source == TOMBSTONE then policies - {e.name} else policies[e.name := e.source])
  }

  /** The whole log: only effective sources have to be well formed. */
  function Parsed(log: seq<string>): Result<map<string, string>, ()> {
    match Registered(log)
    case None => Err(())
    case Some(policies) => if forall source | source in policies.Values :: IsSource(source) then Ok(policies) else Err(())
  }

  method Parse(decode: string -> Option<seq<string>>, config: string) returns (r: Result<set<string>, ()>)
    ensures r == ParsedConfig(decode, config)
  {
    var policies: map<string, string> := map[];
    if Trim(config) != "" {
      var decoded := decode(config);
      if decoded.None? { return Err(()); }
      var registrations := decoded.value;
      for i := 0 to |registrations|
        invariant Registered(registrations[..i]) == Some(policies)
      {
        assert registrations[..i + 1][..i] == registrations[..i];
        var entry := Split(registrations[i]);
        if entry.None? || !IsPolicyName(entry.value.name) {
          Unattributed(registrations, i);
          return Err(());
        }
        if entry.value.source == TOMBSTONE {
          policies := policies - {entry.value.name};
          continue;
        }
        policies := policies[entry.value.name := entry.value.source];
      }
      assert registrations[..|registrations|] == registrations;
    }
    if !forall source | source in policies.Values :: IsSource(source) { return Err(()); }
    return Ok(policies.Values);
  }

  /** The required sources a configuration names. */
  function ParsedConfig(decode: string -> Option<seq<string>>, config: string): Result<set<string>, ()> {
    var log := if Trim(config) == "" then Some([]) else decode(config);
    if log.None? then Err(())
    else match Parsed(log.value)
      case Ok(policies) => Ok(policies.Values)
      case Err(_) => Err(())
  }

  lemma {:induction false} Unattributed(log: seq<string>, i: nat)
    requires i < |log| && Attributed(log[i]) == None
    ensures Registered(log) == None
    decreases |log|
  {
    if i < |log| - 1 { Unattributed(log[..|log| - 1], i); }
  }

  // ---- Last writer wins ----

  ghost predicate AllAttributed(log: seq<string>) {
    forall i | 0 <= i < |log| :: Attributed(log[i]).Some?
  }

  /** The source a name is left with: what its last entry says, unless that is a tombstone. */
  function Effective(log: seq<string>, name: string): Option<string> {
    if Latest(log, name) == Some(TOMBSTONE) then None else Latest(log, name)
  }

  function Lookup(policies: map<string, string>, name: string): Option<string> {
    if name in policies then Some(policies[name]) else None
  }

  lemma {:induction false} RegisteredIsEffective(log: seq<string>, name: string)
    ensures Registered(log).Some? <==> AllAttributed(log)
    ensures Registered(log).Some? ==> Lookup(Registered(log).value, name) == Effective(log, name)
    decreases |log|
  {
    if log != [] {
      hide Attributed;
      RegisteredIsEffective(log[..|log| - 1], name);
    }
  }

  ghost predicate SourcesFit(log: seq<string>) {
    forall name :: Effective(log, name).Some? ==> IsSource(Effective(log, name).value)
  }

  lemma ValuesFit(policies: map<string, string>, log: seq<string>)
    requires forall name :: Lookup(policies, name) == Effective(log, name)
    ensures (forall source | source in policies.Values :: IsSource(source)) <==> SourcesFit(log)
  {
    hide Effective, IsSource;
    if SourcesFit(log) {
      forall source | source in policies.Values ensures IsSource(source) {
        var name :| name in policies && policies[name] == source;
        assert Lookup(policies, name) == Effective(log, name);
      }
    }
    if forall source | source in policies.Values :: IsSource(source) {
      forall name | Effective(log, name).Some? ensures IsSource(Effective(log, name).value) {
        assert Lookup(policies, name) == Effective(log, name);
        assert name in policies && policies[name] in policies.Values;
      }
    }
  }

  /** Parsing gives exactly the last-writer-wins map; it fails exactly when some entry cannot be attributed to a
      name or some name is left with a malformed source. */
  lemma ParsedIsLastWriterWins(log: seq<string>)
    ensures Parsed(log).Ok? <==> AllAttributed(log) && SourcesFit(log)
    ensures Parsed(log).Ok? ==> forall name :: Lookup(Parsed(log).value, name) == Effective(log, name)
  {
    RegisteredIsEffective(log, "");
    hide Registered, Effective, IsSource, AllAttributed, SourcesFit, Lookup;
    if Registered(log).Some? {
      forall name ensures Lookup(Registered(log).value, name) == Effective(log, name) {
        RegisteredIsEffective(log, name);
      }
      ValuesFit(Registered(log).value, log);
    }
  }

  // ---- The same on the entries ----

  /** Entry k gives the name this source, and no later entry is about that name. */
  ghost predicate SaysLast(log: seq<string>, k: nat, name: string, source: string) {
    k < |log| && IsEntry(log[k], name, source) && forall j, other | k < j < |log| :: !IsEntry(log[j], name, other)
  }

  ghost predicate NeverNamed(log: seq<string>, name: string) {
    forall j, other | 0 <= j < |log| :: !IsEntry(log[j], name, other)
  }

  lemma IsForExactly(text: string, name: string)
    ensures IsFor(text, name) <==> exists source :: IsEntry(text, name, source)
    ensures IsFor(text, name) ==> IsEntry(text, name, Attributed(text).value.source)
    ensures forall source | IsEntry(text, name, source) :: IsFor(text, name) && Attributed(text).value.source == source
  {
    forall source ensures Attributed(text) == Some(Entry(name, source)) <==> IsEntry(text, name, source) {
      AttributedExactly(text, name, source);
    }
    hide Attributed, IsEntry;
    if IsFor(text, name) { assert Attributed(text) == Some(Entry(name, Attributed(text).value.source)); }
  }

  lemma {:induction false} LatestExactly(log: seq<string>, name: string)
    ensures forall source :: Latest(log, name) == Some(source) <==> exists k: nat :: SaysLast(log, k, name, source)
    ensures Latest(log, name) == None <==> NeverNamed(log, name)
    decreases |log|
  {
    if log != [] {
      var init, n := log[..|log| - 1], |log| - 1;
      LatestExactly(init, name);
      IsForExactly(log[n], name);
      hide Attributed, IsEntry, IsFor;
      if IsFor(log[n], name) {
        assert SaysLast(log, n, name, Attributed(log[n]).value.source);
      } else {
        assert log == init + [log[n]];
        forall source, k: nat ensures SaysLast(log, k, name, source) <==> SaysLast(init, k, name, source) {
          LastOfMore(init, log[n], k, name, source);
        }
        assert NeverNamed(log, name) <==> NeverNamed(init, name);
      }
    }
  }

  lemma LastOfMore(init: seq<string>, last: string, k: nat, name: string, source: string)
    requires forall other :: !IsEntry(last, name, other)
    ensures SaysLast(init + [last], k, name, source) <==> SaysLast(init, k, name, source)
  {
    hide IsEntry;
    assert forall j | 0 <= j < |init| :: (init + [last])[j] == init[j];
  }

  lemma EffectiveExactly(log: seq<string>, name: string, source: string)
    ensures Effective(log, name) == Some(source) <==> source != "-" && exists k: nat :: SaysLast(log, k, name, source)
  {
    LatestExactly(log, name);
    hide Latest, SaysLast, NeverNamed;
    assert Latest(log, name) == Some(source) <==> exists k: nat :: SaysLast(log, k, name, source);
  }

  /** A log is refused exactly when some entry is not of the form name=source, or the last entry of some name gives
      neither a well-formed source nor a tombstone; earlier entries of that name may say anything. */
  lemma ParsedIff(log: seq<string>)
    ensures Parsed(log).Ok? <==>
            && (forall text | text in log :: IsSomeEntry(text))
            && (forall k: nat, name, source | SaysLast(log, k, name, source) && source != "-" :: IsSource(source))
  {
    ParsedIsLastWriterWins(log);
    forall text | text in log ensures Attributed(text).Some? <==> IsSomeEntry(text) {
      SomeEntry(text);
    }
    hide Parsed, Attributed, Effective, IsSource, SaysLast, IsSomeEntry;
    if SourcesFit(log) {
      forall k: nat, name, source | SaysLast(log, k, name, source) && source != "-" ensures IsSource(source) {
        EffectiveExactly(log, name, source);
      }
    } else {
      var name :| Effective(log, name).Some? && !IsSource(Effective(log, name).value);
      EffectiveExactly(log, name, Effective(log, name).value);
    }
  }

  ghost predicate IsSomeEntry(text: string) {
    exists name, source :: IsEntry(text, name, source)
  }

  lemma SomeEntry(text: string)
    ensures Attributed(text).Some? <==> IsSomeEntry(text)
  {
    forall name, source ensures Attributed(text) == Some(Entry(name, source)) <==> IsEntry(text, name, source) {
      AttributedExactly(text, name, source);
    }
    hide Attributed, IsEntry;
    if Attributed(text).Some? {
      var e := Attributed(text).value;
      assert IsEntry(text, e.name, e.source);
    }
  }

  /** What parsing leaves: a name has a source exactly when that is what its last entry says, and no tombstone. */
  lemma RegisteredExactly(log: seq<string>, name: string, source: string)
    requires Parsed(log).Ok?
    ensures name in Parsed(log).value && Parsed(log).value[name] == source <==>
            source != "-" && exists k: nat :: SaysLast(log, k, name, source)
  {
    ParsedIsLastWriterWins(log);
    EffectiveExactly(log, name, source);
    assert Lookup(Parsed(log).value, name) == Effective(log, name);
    hide Parsed, Effective, SaysLast;
  }

  /** A blank configuration requires nobody, and is not even decoded. */
  lemma BlankConfig(decode: string -> Option<seq<string>>, config: string)
    ensures AllWhite(config) ==> ParsedConfig(decode, config) == Ok({})
    ensures !AllWhite(config) && decode(config).None? ==> ParsedConfig(decode, config).Err?
    ensures !AllWhite(config) && decode(config).Some? ==>
              (ParsedConfig(decode, config).Ok? <==> Parsed(decode(config).value).Ok?) &&
              (Parsed(decode(config).value).Ok? ==> ParsedConfig(decode, config).value == Parsed(decode(config).value).value.Values)
  {
    TrimEmptyIff(config);
    hide Trim, AllWhite;
    var empty: map<string, string> := map[];
    assert Registered([]) == Some(empty) && empty.Values == {};
    assert Parsed([]) == Ok(empty);
  }

  lemma {:induction false} LatestConcat(a: seq<string>, b: seq<string>, name: string)
    ensures Latest(a + b, name) == if Latest(b, name).Some? then Latest(b, name) else Latest(a, name)
    decreases |b|
  {
    if b == [] {
      assert a + b == a;
    } else {
      LatestConcat(a, b[..|b| - 1], name);
      assert (a + b)[..|a + b| - 1] == a + b[..|b| - 1];
    }
  }

  /** Appending an entry changes what is registered under its own name only. */
  lemma AppendIsLocal(log: seq<string>, text: string, name: string)
    requires Attributed(text).Some?
    ensures Latest(log + [text], name) == if IsFor(text, name) then Some(Attributed(text).value.source) else Latest(log, name)
  {
    assert (log + [text])[..|log|] == log;
  }

  /** An entry followed by another of the same name can be dropped without changing anything. */
  lemma SupersededCanGo(a: seq<string>, text: string, b: seq<string>)
    requires Attributed(text).Some? && Latest(b, Attributed(text).value.name).Some?
    ensures Parsed(a + [text] + b) == Parsed(a + b)
  {
    forall name ensures Effective(a + [text] + b, name) == Effective(a + b, name) {
      LatestConcat(a + [text], b, name);
      LatestConcat(a, b, name);
      AppendIsLocal(a, text, name);
    }
    hide Parsed, Latest, Attributed;
    AttributedConcat(a + [text], b);
    AttributedConcat(a, [text]);
    AttributedConcat(a, b);
    assert AllAttributed([text]);
    SameParsed(a + [text] + b, a + b);
  }

  lemma AttributedConcat(a: seq<string>, b: seq<string>)
    ensures AllAttributed(a + b) <==> AllAttributed(a) && AllAttributed(b)
  {
    hide Attributed;
    assert forall i | 0 <= i < |a| :: (a + b)[i] == a[i];
    assert forall i | 0 <= i < |b| :: (a + b)[|a| + i] == b[i];
  }

  lemma SameParsed(a: seq<string>, b: seq<string>)
    requires forall name :: Effective(a, name) == Effective(b, name)
    requires AllAttributed(a) <==> AllAttributed(b)
    ensures Parsed(a) == Parsed(b)
  {
    ParsedIsLastWriterWins(a);
    ParsedIsLastWriterWins(b);
    assert (Parsed(a).Err? ==> Parsed(a) == Err(())) && (Parsed(b).Err? ==> Parsed(b) == Err(()));
    hide Parsed, Effective, AllAttributed, IsSource;
    assert SourcesFit(a) <==> SourcesFit(b);
    hide SourcesFit;
    if Parsed(a).Ok? && Parsed(b).Ok? { SameMap(Parsed(a).value, Parsed(b).value); }
  }

  lemma SameMap(a: map<string, string>, b: map<string, string>)
    requires forall name :: Lookup(a, name) == Lookup(b, name)
    ensures a == b
  {
    forall name ensures name in a <==> name in b { assert Lookup(a, name) == Lookup(b, name); }
    forall name | name in a ensures a[name] == b[name] { assert Lookup(a, name) == Lookup(b, name); }
  }

  // ---- Which log a hook uses ----

  predicate IsProtectedHook(hook: string) {
    hook == "before_tool_call" || hook == "message_received"
  }

  /** The log for one hook: its scoped entries, then, for prompt and pre-tool hooks, the legacy ones. */
  function Selected(hook: string, legacy: Option<seq<string>>, scopes: Option<map<string, seq<string>>>): Result<seq<string>, ()> {
    if scopes.None? then Err(())
    else if exists name | name in scopes.value :: !IsHookName(name) || Parsed(scopes.value[name]).Err? then Err(())
    else
      var scoped := if hook in scopes.value then scopes.value[hook] else [];
      if !IsProtectedHook(hook) then Ok(scoped)
      else if legacy.None? then Err(())
      else Ok(scoped + legacy.value)
  }

  method RegistrationsForHook(hook: string, legacy: Option<seq<string>>, scopes: Option<map<string, seq<string>>>)
    returns (r: Result<seq<string>, ()>)
    ensures r == Selected(hook, legacy, scopes)
  {
    hide Parsed, IsHookName;
    if scopes.None? { return Err(()); }
    var names := scopes.value.Keys;
    while names != {}
      invariant forall name | name in scopes.value :: name in names || (IsHookName(name) && Parsed(scopes.value[name]).Ok?)
      invariant names <= scopes.value.Keys
      decreases |names|
    {
      var name :| name in names;
      if !IsHookName(name) || Parsed(scopes.value[name]).Err? { return Err(()); }
      names := names - {name};
    }
    var selected := if hook in scopes.value then scopes.value[hook] else [];
    if IsProtectedHook(hook) {
      if legacy.None? { return Err(()); }
      selected := selected + legacy.value;
    }
    return Ok(selected);
  }

  /** Which entries a hook goes by: all scopes have to be well formed, its own scope comes first, and the legacy list
      after it, on prompt and pre-tool hooks and there only. */
  lemma SelectedExactly(hook: string, legacy: Option<seq<string>>, scopes: Option<map<string, seq<string>>>)
    ensures var guarded := hook in {"before_tool_call", "message_received"};
            && (Selected(hook, legacy, scopes).Ok? <==>
                  && scopes.Some? && (forall name | name in scopes.value :: Hook(name) && Parsed(scopes.value[name]).Ok?)
                  && (guarded ==> legacy.Some?))
            && (Selected(hook, legacy, scopes).Ok? ==>
                  Selected(hook, legacy, scopes).value ==
                  (if hook in scopes.value then scopes.value[hook] else []) + (if guarded then legacy.value else []))
  {
    forall name { NamesAre(name); }
    hide Parsed, Hook, IsHookName;
  }

  /** On prompt and pre-tool hooks the legacy list prevails: parsing succeeds exactly when the legacy list itself
      parses, and then every policy it registers stays registered with its source, whatever the scoped entries say. */
  lemma LegacyPrevails(hook: string, legacy: seq<string>, scopes: Option<map<string, seq<string>>>)
    requires hook in {"before_tool_call", "message_received"} && Selected(hook, Some(legacy), scopes).Ok?
    ensures Parsed(Selected(hook, Some(legacy), scopes).value).Ok? <==> Parsed(legacy).Ok?
    ensures var selected := Parsed(Selected(hook, Some(legacy), scopes).value);
            selected.Ok? ==> forall name | name in Parsed(legacy).value ::
              name in selected.value && selected.value[name] == Parsed(legacy).value[name]
  {
    var scoped := if hook in scopes.value then scopes.value[hook] else [];
    var all := scoped + legacy;
    assert Parsed(scoped).Ok? by { if hook in scopes.value { assert Parsed(scopes.value[hook]).Ok?; } }
    assert SourcesFit(scoped) by { ParsedIsLastWriterWins(scoped); }
    forall name ensures Effective(all, name) == if Latest(legacy, name).Some? then Effective(legacy, name) else Effective(scoped, name) {
      LatestConcat(scoped, legacy, name);
    }
    AttributedConcat(scoped, legacy);
    LegacyFits(scoped, legacy, all);
    ParsedIsLastWriterWins(scoped);
    ParsedIsLastWriterWins(legacy);
    ParsedIsLastWriterWins(all);
    hide Parsed, AllAttributed, IsSource, SourcesFit, Selected;
    assert forall name :: Effective(legacy, name).Some? ==> Latest(legacy, name).Some?;
    hide Effective, Latest;
    if Parsed(all).Ok? {
      forall name | name in Parsed(legacy).value
        ensures name in Parsed(all).value && Parsed(all).value[name] == Parsed(legacy).value[name]
      {
        assert Lookup(Parsed(legacy).value, name) == Effective(legacy, name);
        assert Lookup(Parsed(all).value, name) == Effective(all, name);
      }
    }
  }

  lemma LegacyFits(scoped: seq<string>, legacy: seq<string>, all: seq<string>)
    requires forall name :: Effective(all, name) == if Latest(legacy, name).Some? then Effective(legacy, name) else Effective(scoped, name)
    requires SourcesFit(scoped)
    ensures SourcesFit(all) <==> SourcesFit(legacy)
  {
    assert forall name :: Effective(legacy, name).Some? ==> Latest(legacy, name).Some?;
    hide Effective, Latest, IsSource;
    if SourcesFit(all) {
      forall name | Effective(legacy, name).Some? ensures IsSource(Effective(legacy, name).value) {
        assert Effective(all, name) == Effective(legacy, name);
      }
    }
  }
}

/** Collecting the replies of required policies. Silence is not permission. */
module PolicyReplies {
  import opened Common
  import opened PolicyLog
  import opened Utf8

  const MAX_REASON_BYTES := 4096

  datatype Decision = Decision(skip: bool, ask: bool, reason: Option<string>)

  const NO_OBJECTION := Decision(false, false, None)
  const UNAVAILABLE := Decision(true, false, Some("A required AOS policy responder is unavailable; retry when AOS is ready."))

  /** A reply as it arrived; None is a payload that does not decode. */
  datatype Reply = Reply(source: string, payload: Option<Decision>)

  predicate IsWellFormed(payload: Option<Decision>) {
    payload.Some? && (payload.value.reason.Some? ==> ByteLen(payload.value.reason.value) <= MAX_REASON_BYTES)
  }

  predicate Malformed(required: set<string>, r: Reply) {
    r.source in required && !IsWellFormed(r.payload)
  }

  predicate Counts(required: set<string>, r: Reply) {
    r.source in required && IsWellFormed(r.payload)
  }

  /** The sources with a counted reply. */
  function Heard(required: set<string>, replies: seq<Reply>): set<string> {
    set r | r in replies && Counts(required, r) :: r.source
  }

  ghost predicate AnyMalformed(required: set<string>, replies: seq<Reply>) {
    exists r | r in replies :: Malformed(required, r)
  }

  predicate Vetoes(required: set<string>, r: Reply) {
    Counts(required, r) && r.payload.value.skip
  }

  predicate Asks(required: set<string>, r: Reply) {
    Counts(required, r) && r.payload.value.ask
  }

  function LastVeto(required: set<string>, replies: seq<Reply>): Option<Decision> {
    if replies == [] then None
    else if Vetoes(required, replies[|replies| - 1]) then replies[|replies| - 1].payload
    else LastVeto(required, replies[..|replies| - 1])
  }

  function LastAsk(required: set<string>, replies: seq<Reply>): Option<Decision> {
    if replies == [] then None
    else if Asks(required, replies[|replies| - 1]) then replies[|replies| - 1].payload
    else LastAsk(required, replies[..|replies| - 1])
  }

  /** The last veto, else the last ask, else no objection. */
  function Prevailing(required: set<string>, replies: seq<Reply>): Decision {
    LastVeto(required, replies).GetOr(LastAsk(required, replies).GetOr(NO_OBJECTION))
  }

  /** What `finish` says after these replies. */
  ghost function Verdict(required: set<string>, replies: seq<Reply>): Decision {
    if AnyMalformed(required, replies) || !(required <= Heard(required, replies)) then UNAVAILABLE
    else Prevailing(required, replies)
  }

  class RequiredReplies {
    var pending: set<string>
    var required: set<string>
    var decision: Decision
    var invalid: bool
    ghost var replies: seq<Reply>

    ghost predicate Valid()
      reads this
    {
      && pending == required - Heard(required, replies)
      && decision == Prevailing(required, replies)
      && invalid == AnyMalformed(required, replies)
    }

    constructor (sources: set<string>)
      ensures Valid() && required == sources && replies == []
    {
      pending, required, decision, invalid, replies := sources, sources, NO_OBJECTION, false, [];
    }

    predicate Complete()
      reads this
    {
      pending == {}
    }

    method Accept(source: string, payload: Option<Decision>)
      requires Valid()
      modifies this`pending, this`decision, this`invalid, this`replies
      ensures Valid() && replies == old(replies) + [Reply(source, payload)]
    {
      HeardMore(required, replies, Reply(source, payload));
      replies := replies + [Reply(source, payload)];
      if source !in required { return; }
      if payload.None? {
        invalid := true;
        return;
      }
      var reply := payload.value;
      if reply.reason.Some? && ByteLen(reply.reason.value) > MAX_REASON_BYTES {
        invalid := true;
        return;
      }
      pending := pending - {source};
      if reply.skip || (!decision.skip && reply.ask) {
        decision := reply;
      }
    }

    /** How long to wait for the next reply: never past the deadline, and at most `quiescence` once all have replied. */
    method NextWait(elapsed: nat, deadline: nat, quiescence: nat) returns (wait: Option<nat>)
      requires Valid()
      ensures wait.None? <==> elapsed >= deadline
      ensures wait.Some? ==> elapsed + wait.value <= deadline
      ensures wait.Some? ==>
                if required <= Heard(required, replies) then wait.value == Min(deadline - elapsed, quiescence)
                else wait.value == deadline - elapsed
    {
      NoneLeft(required, Heard(required, replies));
      if elapsed >= deadline { return None; }
      var remaining := deadline - elapsed;
      if Complete() {
        wait := Some(Min(remaining, quiescence));
      } else {
        wait := Some(remaining);
      }
    }

    method Finish() returns (r: Decision)
      requires Valid()
      ensures r == Verdict(required, replies)
    {
      NoneLeft(required, Heard(required, replies));
      r := if invalid || !Complete() then UNAVAILABLE else decision;
    }
  }

  lemma NoneLeft(a: set<string>, b: set<string>)
    ensures a - b == {} <==> a <= b
  {
    assert forall x | x in a && x !in b :: x in a - b;
  }

  /** What one more reply adds. */
  lemma HeardMore(required: set<string>, replies: seq<Reply>, r: Reply)
    ensures Heard(required, replies + [r]) == Heard(required, replies) + if Counts(required, r) then {r.source} else {}
    ensures AnyMalformed(required, replies + [r]) <==> AnyMalformed(required, replies) || Malformed(required, r)
    ensures Prevailing(required, replies + [r]) ==
            var before := Prevailing(required, replies);
            if Counts(required, r) && (r.payload.value.skip || (!before.skip && r.payload.value.ask)) then r.payload.value else before
  {
    assert Counts(required, r) ==> r.payload.Some?;
    hide IsWellFormed;
    assert (replies + [r])[..|replies|] == replies;
    assert forall x :: x in replies + [r] <==> x in replies || x == r;
    LastVetoVetoes(required, replies);
    WithoutVeto(required, replies);
  }

  lemma {:induction false} LastVetoVetoes(required: set<string>, replies: seq<Reply>)
    ensures LastVeto(required, replies).Some? <==> exists r | r in replies :: Vetoes(required, r)
    ensures LastVeto(required, replies).Some? ==> LastVeto(required, replies).value.skip
  {
    if replies != [] {
      hide IsWellFormed;
      var init, last := replies[..|replies| - 1], replies[|replies| - 1];
      LastVetoVetoes(required, init);
      assert last in replies && forall r | r in replies :: r in init || r == last;
    }
  }

  lemma {:induction false} LastAskAsks(required: set<string>, replies: seq<Reply>)
    ensures LastAsk(required, replies).Some? <==> exists r | r in replies :: Asks(required, r)
    ensures LastAsk(required, replies).Some? ==> exists r | r in replies :: Asks(required, r) && r.payload == LastAsk(required, replies)
  {
    if replies != [] {
      hide IsWellFormed;
      var init, last := replies[..|replies| - 1], replies[|replies| - 1];
      LastAskAsks(required, init);
      assert last in replies && forall r | r in replies :: r in init || r == last;
    }
  }

  /** Without a veto the prevailing decision does not skip, and asks exactly when some reply asks. */
  lemma WithoutVeto(required: set<string>, replies: seq<Reply>)
    ensures Prevailing(required, replies).skip <==> exists r | r in replies :: Vetoes(required, r)
    ensures !Prevailing(required, replies).skip ==> (Prevailing(required, replies).ask <==> exists r | r in replies :: Asks(required, r))
  {
    hide IsWellFormed;
    LastVetoVetoes(required, replies);
    LastAskAsks(required, replies);
    if LastVeto(required, replies).None? && LastAsk(required, replies).Some? {
      var r :| r in replies && Asks(required, r) && r.payload == LastAsk(required, replies);
      assert !Vetoes(required, r);
    }
    hide LastVeto, LastAsk;
  }

  // ---- Fail closed ----

  /** Not skipped exactly when every required source sent a well-formed reply, none of them sent a malformed one,
      and none vetoed; then it asks exactly when one of them asked. */
  lemma FailsClosed(required: set<string>, replies: seq<Reply>)
    ensures !Verdict(required, replies).skip <==>
            && (forall s | s in required :: exists r | r in replies :: r.source == s && IsWellFormed(r.payload))
            && (forall r | r in replies && r.source in required :: IsWellFormed(r.payload) && !r.payload.value.skip)
    ensures !Verdict(required, replies).skip ==>
            (Verdict(required, replies).ask <==> exists r | r in replies :: r.source in required && IsWellFormed(r.payload) && r.payload.value.ask)
  {
    hide IsWellFormed, Prevailing;
    WithoutVeto(required, replies);
    forall s | s in required
      ensures s in Heard(required, replies) <==> exists r | r in replies :: r.source == s && IsWellFormed(r.payload)
    {
    }
  }

  /** A reply counts exactly when it decodes and its reason, if any, is at most 4096 bytes long. */
  lemma CountsExactly(payload: Option<Decision>)
    ensures IsWellFormed(payload) <==> payload.Some? && (payload.value.reason.Some? ==> |Encode(payload.value.reason.value)| <= 4096)
  {
  }

  ghost predicate AllGood(required: set<string>, replies: seq<Reply>) {
    && (forall s | s in required :: exists r | r in replies :: r.source == s && IsWellFormed(r.payload))
    && (forall r | r in replies && r.source in required :: IsWellFormed(r.payload))
  }


  /** The whole answer. Unless every required source replied, and none of their replies was malformed, the operation is
      skipped for want of a responder. */
  lemma UnlessAllGood(required: set<string>, replies: seq<Reply>)
    ensures !AllGood(required, replies) ==>
            Verdict(required, replies) ==
            Decision(true, false, Some("A required AOS policy responder is unavailable; retry when AOS is ready."))
    ensures AllGood(required, replies) ==> Verdict(required, replies) == Prevailing(required, replies)
  {
    hide IsWellFormed, Prevailing;
    forall s | s in required
      ensures s in Heard(required, replies) <==> exists r | r in replies :: r.source == s && IsWellFormed(r.payload)
    {
    }
  }

  predicate Vetoing(required: set<string>, r: Reply) {
    r.source in required && r.payload.Some? && r.payload.value.skip
  }

  predicate Asking(required: set<string>, r: Reply) {
    r.source in required && r.payload.Some? && r.payload.value.ask
  }

  lemma {:induction false} LastVetoIs(required: set<string>, replies: seq<Reply>, k: nat)
    requires forall r | r in replies && r.source in required :: IsWellFormed(r.payload)
    requires k < |replies| && Vetoing(required, replies[k]) && forall j | k < j < |replies| :: !Vetoing(required, replies[j])
    ensures LastVeto(required, replies) == replies[k].payload
    decreases |replies|
  {
    hide ByteLen;
    assert replies[|replies| - 1] in replies;
    if k < |replies| - 1 { LastVetoIs(required, replies[..|replies| - 1], k); }
  }

  lemma {:induction false} LastAskIs(required: set<string>, replies: seq<Reply>, k: nat)
    requires forall r | r in replies && r.source in required :: IsWellFormed(r.payload)
    requires k < |replies| && Asking(required, replies[k]) && forall j | k < j < |replies| :: !Asking(required, replies[j])
    ensures LastAsk(required, replies) == replies[k].payload
    decreases |replies|
  {
    hide ByteLen;
    assert replies[|replies| - 1] in replies;
    if k < |replies| - 1 { LastAskIs(required, replies[..|replies| - 1], k); }
  }

  /** Otherwise the last veto of a required source is the answer, with its reason; without a veto the last ask is; and
      without either there is no objection. */
  lemma AnswerExactly(required: set<string>, replies: seq<Reply>)
    requires AllGood(required, replies)
    ensures var v := Verdict(required, replies);
            && (forall k | 0 <= k < |replies| && Vetoing(required, replies[k])
                           && (forall j | k < j < |replies| :: !Vetoing(required, replies[j])) ::
                  v == replies[k].payload.value)
            && ((forall r | r in replies :: !Vetoing(required, r)) ==>
                  && (forall k | 0 <= k < |replies| && Asking(required, replies[k])
                                 && (forall j | k < j < |replies| :: !Asking(required, replies[j])) ::
                        v == replies[k].payload.value)
                  && ((forall r | r in replies :: !Asking(required, r)) ==> v == Decision(false, false, None)))
  {
    UnlessAllGood(required, replies);
    LastVetoVetoes(required, replies);
    LastAskAsks(required, replies);
    assert forall r :: (Vetoes(required, r) ==> Vetoing(required, r)) && (Asks(required, r) ==> Asking(required, r));
    hide IsWellFormed, Verdict, LastVeto, LastAsk, Vetoes, Asks;
    forall k | 0 <= k < |replies| && Vetoing(required, replies[k]) && (forall j | k < j < |replies| :: !Vetoing(required, replies[j]))
      ensures LastVeto(required, replies) == replies[k].payload
    {
      LastVetoIs(required, replies, k);
    }
    forall k | 0 <= k < |replies| && Asking(required, replies[k]) && (forall j | k < j < |replies| :: !Asking(required, replies[j]))
      ensures LastAsk(required, replies) == replies[k].payload
    {
      LastAskIs(required, replies, k);
    }
  }

  /** The order of replies decides neither whether to skip nor, when not skipping, whether to ask. */
  lemma OrderDoesNotMatter(required: set<string>, a: seq<Reply>, b: seq<Reply>)
    requires multiset(a) == multiset(b)
    ensures Verdict(required, a).skip == Verdict(required, b).skip
    ensures !Verdict(required, a).skip ==> Verdict(required, a).ask == Verdict(required, b).ask
  {
    forall r ensures r in a <==> r in b { assert r in multiset(a) <==> r in multiset(b); }
    hide IsWellFormed, Verdict;
    FailsClosed(required, a);
    FailsClosed(required, b);
  }

  /** No later reply lifts a veto or a malformed reply. */
  lemma NothingLiftsAVeto(required: set<string>, replies: seq<Reply>, more: seq<Reply>)
    requires exists r | r in replies :: Vetoes(required, r) || Malformed(required, r)
    ensures Verdict(required, replies + more).skip
  {
    hide IsWellFormed, Verdict;
    var r :| r in replies && (Vetoes(required, r) || Malformed(required, r));
    assert r in replies + more;
    FailsClosed(required, replies + more);
  }

  /** For prompt and pre-tool hooks a source of the legacy list must reply and must not veto, whatever was registered
      since: otherwise the operation is skipped. */
  lemma LegacySourcesMustAgree(hook: string, legacy: seq<string>, scopes: Option<map<string, seq<string>>>, source: string, replies: seq<Reply>)
    requires hook in {"before_tool_call", "message_received"} && Selected(hook, Some(legacy), scopes).Ok?
    requires Parsed(Selected(hook, Some(legacy), scopes).value).Ok?
    requires Parsed(legacy).Ok? && source in Parsed(legacy).value.Values
    ensures var required := Parsed(Selected(hook, Some(legacy), scopes).value).value.Values;
            !Verdict(required, replies).skip ==>
              && (exists r | r in replies :: r.source == source && IsWellFormed(r.payload))
              && (forall r | r in replies && r.source == source :: IsWellFormed(r.payload) && !r.payload.value.skip)
  {
    hide IsWellFormed, Verdict, Parsed, Selected;
    var policies := Parsed(Selected(hook, Some(legacy), scopes).value).value;
    LegacyPrevails(hook, legacy, scopes);
    var name :| name in Parsed(legacy).value && Parsed(legacy).value[name] == source;
    assert policies[name] in policies.Values;
    FailsClosed(policies.Values, replies);
  }
}
