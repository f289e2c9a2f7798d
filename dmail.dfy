/** The inbox poller: the registry of dmail commands built when the module loads, one check of the
    inbox, and the state kept between checks (the in-progress flag and the processed ids). */
module Poller {
  import opened Common
  import opened Inbox
  import Replacement

  // ---------------------------------------------------------------- the command registry

  /** The handler a command module provides: the replacement handler, or another module whose
      behaviour is not part of this model. */
  datatype Command = ReplacementCommand | OtherCommand(file: string)

  /** A `.js` file of the commands directory: whether `require` succeeds, its `name` property
      (a string, when present), whether it has an `execute` property, and the handler. */
  datatype CommandModule = CommandModule(loads: bool, name: Option<string>, hasExecute: bool, command: Command)

  /** The module is put in the registry. */
  predicate Registers(m: CommandModule) {
    m.loads && m.name.Some? && m.hasExecute
  }

  /** The module is put in the registry under key `k`. */
  predicate RegistersAs(m: CommandModule, k: string) {
    Registers(m) && LowerString(m.name.value) == k
  }

  /** The registry after loading `mods` in directory order; a later module replaces an earlier one with the same key. */
  function RegistryOf(mods: seq<CommandModule>): map<string, Command>
    decreases |mods|
  {
    if mods == [] then map[]
    else
      var m := mods[|mods| - 1];
      var registry := RegistryOf(mods[..|mods| - 1]);
      if Registers(m) then registry[LowerString(m.name.value) := m.command] else registry
  }

  /** The loading loop; a module that fails to load or lacks a property is skipped. */
  method BuildRegistry(mods: seq<CommandModule>) returns (registry: map<string, Command>)
    ensures registry == RegistryOf(mods)
  {
    registry := map[];
    for i := 0 to |mods|
      invariant registry == RegistryOf(mods[..i])
    {
      assert mods[..i + 1][..i] == mods[..i];
      var m := mods[i];
      if m.loads && m.name.Some? && m.hasExecute {
        registry := registry[LowerString(m.name.value) := m.command];
      }
    }
    assert mods[..|mods|] == mods;
  }

  /** A key is in the registry exactly when some module registers under it, and it holds the handler
      of the last such module. */
  lemma {:induction false} RegistryEntries(mods: seq<CommandModule>, k: string)
    ensures k in RegistryOf(mods) <==> exists i :: 0 <= i < |mods| && RegistersAs(mods[i], k)
    ensures forall i :: (0 <= i < |mods| && RegistersAs(mods[i], k) && (forall j :: i < j < |mods| ==> !RegistersAs(mods[j], k))
      ==> k in RegistryOf(mods) && RegistryOf(mods)[k] == mods[i].command)
  {
    if mods != [] {
      var n := |mods| - 1;
      var init := mods[..n];
      RegistryEntries(init, k);
      assert forall i :: 0 <= i < n ==> init[i] == mods[i];
      if !RegistersAs(mods[n], k) {
        assert RegistryOf(mods) == RegistryOf(init) || (Registers(mods[n]) && LowerString(mods[n].name.value) != k);
      }
    }
  }

  /** Every key of the registry is already lower-case. */
  lemma RegistryKeysLower(mods: seq<CommandModule>, k: string)
    requires k in RegistryOf(mods)
    ensures LowerString(k) == k
  {
    RegistryEntries(mods, k);
    var i :| 0 <= i < |mods| && RegistersAs(mods[i], k);
    LowerTwice(mods[i].name.value);
  }

  lemma LowerTwice(s: string)
    ensures LowerString(LowerString(s)) == LowerString(s)
  {
  }

  // ---------------------------------------------------------------- routing

  /** The registry key and handler a title selects: `title?.toLowerCase()` looked up exactly. */
  function Route(registry: map<string, Command>, title: Option<string>): Option<(string, Command)> {
    if title.Some? && LowerString(title.value) in registry
    then Some((LowerString(title.value), registry[LowerString(title.value)]))
    else None
  }

  /** A title selects a registered command exactly when it equals the command's name up to ASCII case:
      no trimming, no prefix match. */
  lemma RouteIff(mods: seq<CommandModule>, title: string, k: string)
    requires k in RegistryOf(mods)
    ensures Route(RegistryOf(mods), Some(title)) == Some((k, RegistryOf(mods)[k])) <==> EqualCI(title, k)
  {
    RegistryKeysLower(mods, k);
    if EqualCI(title, k) {
      assert LowerString(title) == LowerString(k);
    }
  }

  /** The repository's commands directory holds the replacement command only. */
  function RepositoryCommands(): seq<CommandModule> {
    [CommandModule(true, Some("replacement"), true, ReplacementCommand)]
  }

  /** The repository's registry holds one entry, under "replacement". */
  lemma RepositoryRegistry()
    ensures RegistryOf(RepositoryCommands()) == map["replacement" := ReplacementCommand]
  {
    var m := RepositoryCommands()[0];
    SingleRegistry(m);
    ReplacementIsLower();
  }

  lemma ReplacementIsLower()
    ensures LowerString("replacement") == "replacement"
  {
    var name := "replacement";
    assert forall i :: 0 <= i < |name| ==> !IsUpper(name[i]);
    LowerOfLower(name);
  }

  /** A directory with one registering module. */
  lemma SingleRegistry(m: CommandModule)
    requires Registers(m)
    ensures RegistryOf([m]) == map[LowerString(m.name.value) := m.command]
  {
    assert [m][..0] == [];
  }

  lemma LowerOfLower(s: string)
    requires forall i :: 0 <= i < |s| ==> !IsUpper(s[i])
    ensures LowerString(s) == s
  {
  }

  /** Any capitalisation of "replacement" reaches the replacement handler; a trailing space does not,
      and neither does a missing title. */
  lemma RepositoryRouting(title: string)
    requires EqualCI(title, "replacement")
    ensures Route(RegistryOf(RepositoryCommands()), Some(title)) == Some(("replacement", ReplacementCommand))
    ensures Route(RegistryOf(RepositoryCommands()), Some(title + " ")) == None
    ensures Route(RegistryOf(RepositoryCommands()), None) == None
  {
    RepositoryRegistry();
    ReplacementIsLower();
    RouteSingle("replacement", ReplacementCommand, title);
    RouteSingle("replacement", ReplacementCommand, title + " ");
  }

  /** Routing in a one-entry registry whose key is lower-case. */
  lemma RouteSingle(k: string, c: Command, title: string)
    requires LowerString(k) == k
    ensures Route(map[k := c], Some(title)) == (if EqualCI(title, k) then Some((k, c)) else None)
  {
    if EqualCI(title, k) {
      forall i | 0 <= i < |k| ensures LowerString(title)[i] == k[i] {
        assert Lower(title[i]) == Lower(k[i]);
        assert LowerString(k)[i] == Lower(k[i]);
      }
      assert LowerString(title) == k;
    }
  }

  // ---------------------------------------------------------------- one check of the inbox

  /** The configuration the check reads; the shipped configuration exports no bot id. */
  datatype Config = Config(username: Option<string>, apiKey: Option<string>, botId: Option<string>)

  predicate Ready(cfg: Config) {
    Truthy(cfg.username) && Truthy(cfg.apiKey) && Truthy(cfg.botId)
  }

  /** What fetching `dmails.json` gives: an error, a body that is not an array, or the listing. */
  datatype Listing = FetchFailed | NotAList | Dmails(items: seq<Dmail>)

  /** The answers a handler run gets: those of the replacement handler, and for another command
      whether it records the dmail's id. */
  datatype HandlerEnv = HandlerEnv(replacement: Replacement.Env, otherRecords: bool)

  /** Effects of a check, in order, and the processed ids afterwards. */
  datatype Run = Run(effects: seq<Effect>, processed: set<nat>)

  /** The unread dmails, in listing order. */
  function Unread(ds: seq<Dmail>): (r: seq<Dmail>)
    ensures |r| <= |ds|
    ensures forall d :: d in r <==> d in ds && !d.isRead
  {
    if ds == [] then []
    else if ds[0].isRead then Unread(ds[1..])
    else [ds[0]] + Unread(ds[1..])
  }

  lemma {:induction false} UnreadIdempotent(ds: seq<Dmail>)
    ensures Unread(Unread(ds)) == Unread(ds)
  {
    if ds != [] {
      UnreadIdempotent(ds[1..]);
      if !ds[0].isRead {
        assert ([ds[0]] + Unread(ds[1..]))[1..] == Unread(ds[1..]);
      }
    }
  }

  /** The reply to a title that names no command: mark read, reply, record. */
  function FallbackReply(d: Dmail): seq<Effect> {
    [MarkRead(d.id), SendDmail(d.fromId, InvalidCommandTitle(d.title), InvalidCommandBody)]
  }

  /** The handling of one dmail that is neither processed nor the bot's own. */
  function Dispatch(registry: map<string, Command>, d: Dmail, processed: set<nat>, h: HandlerEnv): Run {
    match Route(registry, d.title)
    case None => Run(FallbackReply(d), processed + {d.id})
    case Some((k, ReplacementCommand)) =>
      var o := Replacement.Handle(d, h.replacement);
      Run([RunCommand(k, d.id)] + o.effects, if o.completed then processed + {d.id} else processed)
    case Some((k, OtherCommand(_))) =>
      Run([RunCommand(k, d.id)], if h.otherRecords then processed + {d.id} else processed)
  }

  /** One unread dmail: skipped when processed or sent by the bot itself, dispatched otherwise. */
  function Step(registry: map<string, Command>, botId: string, d: Dmail, processed: set<nat>, h: HandlerEnv): Run {
    if d.id in processed || SenderText(d) == botId then Run([], processed)
    else Dispatch(registry, d, processed, h)
  }

  /** The loop over the unread dmails `ds`; the i-th one's handler gets the answers `envs(i)`. */
  function Loop(registry: map<string, Command>, botId: string, ds: seq<Dmail>, processed: set<nat>, envs: nat -> HandlerEnv): Run
    decreases |ds|
  {
    if ds == [] then Run([], processed)
    else
      var before := Loop(registry, botId, ds[..|ds| - 1], processed, envs);
      var last := Step(registry, botId, ds[|ds| - 1], before.processed, envs(|ds| - 1));
      Run(before.effects + last.effects, last.processed)
  }

  /** One check of the inbox, started while no other check is in progress. */
  function Tick(cfg: Config, registry: map<string, Command>, fetch: Listing, processed: set<nat>, envs: nat -> HandlerEnv): Run {
    if !Ready(cfg) then Run([], processed)
    else match fetch
      case FetchFailed => Run([FetchInbox], processed)
      case NotAList => Run([FetchInbox], processed)
      case Dmails(items) =>
        var unread := Unread(items);
        if |unread| == 0 then Run([FetchInbox], {})
        else
          var r := Loop(registry, cfg.botId.value, unread, processed, envs);
          Run([FetchInbox] + r.effects, r.processed)
  }

  // ---------------------------------------------------------------- the poller's state

  class DmailPoller {
    var checking: bool
    const processed: IdSet
    const registry: map<string, Command>

    /** Loading the module: the registry is built, the set is empty and no check is running. */
    constructor(mods: seq<CommandModule>)
      ensures !checking && registry == RegistryOf(mods)
      ensures fresh(processed) && processed.ids == {}
    {
      var built := BuildRegistry(mods);
      registry := built;
      processed := new IdSet();
      checking := false;
    }

    /** One unread dmail of the loop. */
    method Process(d: Dmail, botId: string, h: HandlerEnv) returns (effects: seq<Effect>)
      modifies processed
      ensures Run(effects, processed.ids) == Step(registry, botId, d, old(processed.ids), h)
    {
      effects := [];
      if processed.Has(d.id) || SenderText(d) == botId {
        return;
      }
      if d.title.Some? && LowerString(d.title.value) in registry {
        var key := LowerString(d.title.value);
        match registry[key] {
          case ReplacementCommand =>
            var handled, _ := Replacement.Execute(d, h.replacement, processed);
            effects := [RunCommand(key, d.id)] + handled;
          case OtherCommand(_) =>
            effects := [RunCommand(key, d.id)];
            if h.otherRecords {
              processed.Add(d.id);
            }
        }
      } else {
        effects := FallbackReply(d);
        processed.Add(d.id);
      }
    }

    /** The loop over the unread dmails, in listing order. */
    method Sweep(unread: seq<Dmail>, botId: string, envs: nat -> HandlerEnv) returns (effects: seq<Effect>)
      modifies processed
      ensures Run(effects, processed.ids) == Loop(registry, botId, unread, old(processed.ids), envs)
    {
      effects := [];
      ghost var start := processed.ids;
      for i := 0 to |unread|
        invariant Run(effects, processed.ids) == Loop(registry, botId, unread[..i], start, envs)
      {
        assert unread[..i + 1][..i] == unread[..i];
        var handled := Process(unread[i], botId, envs(i));
        effects := effects + handled;
      }
      assert unread[..|unread|] == unread;
    }

    /** One check of the inbox. A check that finds another in progress does nothing; otherwise the
        effects and the new set are those of `Tick`, and the flag is clear again afterwards. */
    method CheckDmail(cfg: Config, fetch: Listing, envs: nat -> HandlerEnv) returns (effects: seq<Effect>)
      modifies this, processed
      ensures old(checking) ==> effects == [] && checking && processed.ids == old(processed.ids)
      ensures !old(checking) ==> !checking && Run(effects, processed.ids) == Tick(cfg, registry, fetch, old(processed.ids), envs)
    {
      effects := [];
      if checking {
        return;
      }
      checking := true;
      if !(Truthy(cfg.username) && Truthy(cfg.apiKey) && Truthy(cfg.botId)) {
        checking := false;
        return;
      }
      effects := [FetchInbox];
      if fetch.Dmails? {
        var unread := Unread(fetch.items);
        if |unread| > 0 {
          var handled := Sweep(unread, cfg.botId.value, envs);
          effects := effects + handled;
        } else {
          processed.Clear();
        }
      }
      checking := false;
    }
  }

  // ---------------------------------------------------------------- properties of a check

  /** Without the three configuration values, or without a listing, no handler runs and the set is unchanged. */
  lemma NoListingNoDispatch(cfg: Config, registry: map<string, Command>, fetch: Listing, processed: set<nat>, envs: nat -> HandlerEnv)
    requires !Ready(cfg) || !fetch.Dmails?
    ensures Tick(cfg, registry, fetch, processed, envs).processed == processed
    ensures Tick(cfg, registry, fetch, processed, envs).effects == if Ready(cfg) then [FetchInbox] else []
  {
  }

  /** With the shipped configuration, which has no bot id, every check is a no-op. */
  lemma ShippedConfigIsNoop(username: Option<string>, apiKey: Option<string>, registry: map<string, Command>,
                            fetch: Listing, processed: set<nat>, envs: nat -> HandlerEnv)
    ensures Tick(Config(username, apiKey, None), registry, fetch, processed, envs) == Run([], processed)
  {
  }

  /** The loop only adds ids, and only ids of dmails it was given. */
  lemma {:induction false} LoopOnlyAdds(registry: map<string, Command>, botId: string, ds: seq<Dmail>, processed: set<nat>, envs: nat -> HandlerEnv)
    ensures processed <= Loop(registry, botId, ds, processed, envs).processed
    ensures forall id :: id in Loop(registry, botId, ds, processed, envs).processed - processed ==>
      exists d :: d in ds && d.id == id
  {
    if ds != [] {
      var init := ds[..|ds| - 1];
      LoopOnlyAdds(registry, botId, init, processed, envs);
      forall id | id in Loop(registry, botId, ds, processed, envs).processed - processed
        ensures exists d :: d in ds && d.id == id
      {
        if id in Loop(registry, botId, init, processed, envs).processed {
          assert id in Loop(registry, botId, init, processed, envs).processed - processed;
          var d :| d in init && d.id == id;
          assert d in ds;
        } else {
          assert ds[|ds| - 1] in ds;
        }
      }
    }
  }

  /** A dispatch mentions no dmail but its own: any command it runs or read mark it makes is for `d`. */
  lemma DispatchTouchesOnlyOwn(registry: map<string, Command>, d: Dmail, processed: set<nat>, h: HandlerEnv)
    ensures forall e :: e in Dispatch(registry, d, processed, h).effects ==>
      (e.RunCommand? || e.MarkRead?) ==> e.dmailId == d.id
    ensures Dispatch(registry, d, processed, h).processed <= processed + {d.id}
  {
    Replacement.HandleTouchesOnlyOwn(d, h.replacement);
  }

  /** No id in the set at the start of the loop is dispatched again: no command runs for it and it is not marked read. */
  lemma {:induction false} NoRedispatch(registry: map<string, Command>, botId: string, ds: seq<Dmail>, processed: set<nat>, envs: nat -> HandlerEnv)
    ensures forall e :: e in Loop(registry, botId, ds, processed, envs).effects ==>
      (e.RunCommand? || e.MarkRead?) ==> e.dmailId !in processed
  {
    if ds != [] {
      var init := ds[..|ds| - 1];
      var d := ds[|ds| - 1];
      var before := Loop(registry, botId, init, processed, envs);
      NoRedispatch(registry, botId, init, processed, envs);
      LoopOnlyAdds(registry, botId, init, processed, envs);
      if !(d.id in before.processed || SenderText(d) == botId) {
        DispatchTouchesOnlyOwn(registry, d, before.processed, envs(|ds| - 1));
      }
    }
  }

  /** Dmails that are already processed or that the bot sent itself are passed over without any effect. */
  lemma {:induction false} SkippedLeaveNoTrace(registry: map<string, Command>, botId: string, ds: seq<Dmail>, processed: set<nat>, envs: nat -> HandlerEnv)
    requires forall d :: d in ds ==> d.id in processed || SenderText(d) == botId
    ensures Loop(registry, botId, ds, processed, envs) == Run([], processed)
  {
    if ds != [] {
      var init := ds[..|ds| - 1];
      assert forall d :: d in init ==> d in ds;
      SkippedLeaveNoTrace(registry, botId, init, processed, envs);
      assert ds[|ds| - 1] in ds;
    }
  }

  /** Read dmails play no part: the check on the listing is the check on its unread part. */
  lemma ReadDmailsIgnored(cfg: Config, registry: map<string, Command>, ds: seq<Dmail>, processed: set<nat>, envs: nat -> HandlerEnv)
    ensures Tick(cfg, registry, Dmails(ds), processed, envs) == Tick(cfg, registry, Dmails(Unread(ds)), processed, envs)
  {
    UnreadIdempotent(ds);
  }

  /** A listing with no unread dmail empties the set; otherwise no id is removed. */
  lemma ClearOnlyWhenNothingUnread(cfg: Config, registry: map<string, Command>, ds: seq<Dmail>, processed: set<nat>, envs: nat -> HandlerEnv)
    requires Ready(cfg)
    ensures Unread(ds) == [] ==> Tick(cfg, registry, Dmails(ds), processed, envs).processed == {}
    ensures Unread(ds) != [] ==> processed <= Tick(cfg, registry, Dmails(ds), processed, envs).processed
  {
    LoopOnlyAdds(registry, cfg.botId.value, Unread(ds), processed, envs);
  }

  /** A title that names no command gets the fallback reply, and the id is recorded whatever the send gives. */
  lemma UnknownTitleFallsBack(registry: map<string, Command>, d: Dmail, processed: set<nat>, h: HandlerEnv)
    requires d.title.None? || LowerString(d.title.value) !in registry
    ensures Dispatch(registry, d, processed, h) == Run(FallbackReply(d), processed + {d.id})
  {
  }

  /** On the registry path the poller itself records nothing: the id is added only if the handler adds it. */
  lemma RegistryPathLeavesRecording(registry: map<string, Command>, d: Dmail, processed: set<nat>, h: HandlerEnv)
    requires Route(registry, d.title).Some?
    requires d.id !in processed
    ensures d.id in Dispatch(registry, d, processed, h).processed <==>
      match Route(registry, d.title).value.1
      case ReplacementCommand => Replacement.Handle(d, h.replacement).completed
      case OtherCommand(_) => h.otherRecords
  {
  }
}
