/**
 * core/plugins.py: the hook registry (`_plugins`), plugin settings (`_plugin_config`),
 * event emission and the event builders the core calls.
 */
module Plugins {
  import opened Wrappers

  /** The Python values event data can hold. */
  datatype Value =
    | VNone
    | VBool(b: bool)
    | VInt(i: int)
    | VStr(s: string)
    | VList(items: seq<Value>)
    | VDict(d: map<string, Value>)

  /** An event's data dictionary. */
  type Data = map<string, Value>

  /** What calling a callback does: return some value, or raise. */
  datatype HookResult = Returned(v: Value) | Raised

  /** A registered callback, as a function of the data it is given. */
  type Hook = Data -> HookResult

  /** Whether a callback's result is a dict that carries `key`. */
  predicate Mentions(result: HookResult, key: string)
  {
    result.Returned? && result.v.VDict? && key in result.v.d
  }

  /**
   * One iteration of `emit_event`'s loop: a truthy dict result is merged into the
   * data with `update` (its keys win); any other result, or an exception, leaves the
   * data as it was.
   */
  function Step(data: Data, hook: Hook): (after: Data)
    ensures data.Keys <= after.Keys
    ensures forall k :: k in data && !Mentions(hook(data), k) ==> after[k] == data[k]
    ensures forall k :: k in after && k !in data ==>
              hook(data).Returned? && hook(data).v.VDict? && k in hook(data).v.d
    ensures hook(data).Returned? && hook(data).v.VDict? ==>
              forall k :: k in hook(data).v.d ==> k in after && after[k] == hook(data).v.d[k]
    ensures !(hook(data).Returned? && hook(data).v.VDict?) ==> after == data
  {
    match hook(data)
    case Returned(VDict(d)) => if d != map[] then data + d else data
    case _ => data
  }

  /** The data after running `hooks` in registration order. */
  function Emit(data: Data, hooks: seq<Hook>): Data
  {
    if hooks == [] then data else Step(Emit(data, hooks[..|hooks| - 1]), hooks[|hooks| - 1])
  }

  /** A hook appended last runs once, on what all the earlier hooks produced. */
  lemma EmitAppend(data: Data, hooks: seq<Hook>, hook: Hook)
    ensures Emit(data, hooks + [hook]) == Step(Emit(data, hooks), hook)
  {
    assert (hooks + [hook])[..|hooks|] == hooks;
  }

  /** Running two batches of hooks is running the first batch, then the second. */
  lemma {:induction false} EmitConcat(data: Data, first: seq<Hook>, second: seq<Hook>)
    ensures Emit(data, first + second) == Emit(Emit(data, first), second)
    decreases |second|
  {
    if second == [] {
      assert first + second == first;
    } else {
      var all := first + second;
      var init := second[..|second| - 1];
      assert all[..|all| - 1] == first + init;
      assert all[|all| - 1] == second[|second| - 1];
      EmitConcat(data, first, init);
    }
  }

  /** Callbacks can add and overwrite keys but never remove one. */
  lemma {:induction false} EmitKeepsKeys(data: Data, hooks: seq<Hook>)
    ensures data.Keys <= Emit(data, hooks).Keys
    decreases |hooks|
  {
    if hooks != [] {
      EmitKeepsKeys(data, hooks[..|hooks| - 1]);
    }
  }

  /**
   * `update` leaves alone what it is not given: a key that no callback's dict carries,
   * on the data that callback sees, keeps its original value.
   */
  lemma {:induction false} EmitUntouchedKey(data: Data, hooks: seq<Hook>, key: string)
    requires key in data
    requires forall i :: 0 <= i < |hooks| ==> !Mentions(hooks[i](Emit(data, hooks[..i])), key)
    ensures key in Emit(data, hooks) && Emit(data, hooks)[key] == data[key]
    decreases |hooks|
  {
    if hooks != [] {
      var init := hooks[..|hooks| - 1];
      forall i | 0 <= i < |init| ensures !Mentions(init[i](Emit(data, init[..i])), key) {
        assert init[..i] == hooks[..i];
        assert init[i] == hooks[i];
      }
      EmitUntouchedKey(data, init, key);
      assert hooks[..|hooks| - 1] == init;
      EmitKeepsKeys(data, init);
    }
  }

  /**
   * A callback that raises (or returns nothing mergeable) on the data it sees is
   * skipped: the callbacks after it still run, on the same data.
   */
  lemma SkippedHook(data: Data, before: seq<Hook>, hook: Hook, after: seq<Hook>)
    requires !(hook(Emit(data, before)).Returned? && hook(Emit(data, before)).v.VDict? &&
               hook(Emit(data, before)).v.d != map[])
    ensures Emit(data, before + [hook] + after) == Emit(data, before + after)
  {
    EmitConcat(data, before + [hook], after);
    EmitConcat(data, before, after);
    assert (before + [hook])[..|before|] == before;
  }

  /** When the last callback returns a non-empty dict, its keys have its values. */
  lemma LastHookWins(data: Data, hooks: seq<Hook>, hook: Hook, key: string)
    requires hook(Emit(data, hooks)).Returned? && hook(Emit(data, hooks)).v.VDict?
    requires key in hook(Emit(data, hooks)).v.d
    ensures key in Emit(data, hooks + [hook])
    ensures Emit(data, hooks + [hook])[key] == hook(Emit(data, hooks)).v.d[key]
  {
    assert (hooks + [hook])[..|hooks|] == hooks;
  }

  /** `configure_plugin` settings: `is_plugin_enabled` on a settings table. */
  function EnabledIn(config: map<string, Data>, name: string): (v: Value)
    ensures name !in config || config[name] == map[] ==> v == VBool(false)
    ensures name in config && "enabled" in config[name] ==> v == config[name]["enabled"]
    ensures name in config && "enabled" !in config[name] ==> v == VBool(false)
  {
    if name !in config || config[name] == map[] then VBool(false)
    else if "enabled" in config[name] then config[name]["enabled"]
    else VBool(false)
  }

  /** Configuring a plugin decides `is_plugin_enabled` for it alone. */
  lemma ConfigureDecidesEnabled(config: map<string, Data>, name: string, cfg: Data, other: string)
    requires other != name
    ensures EnabledIn(config[name := cfg], name) ==
              (if "enabled" in cfg then cfg["enabled"] else VBool(false))
    ensures EnabledIn(config[name := cfg], other) == EnabledIn(config, other)
  {
  }

  /** `{name: value, ..., **kwargs}`: Python refuses a keyword argument that repeats a named one. */
  function EventData(named: Data, kwargs: Data): (d: Data)
    requires named.Keys !! kwargs.Keys
    ensures d.Keys == named.Keys + kwargs.Keys
    ensures forall k :: k in named ==> d[k] == named[k]
    ensures forall k :: k in kwargs ==> d[k] == kwargs[k]
  {
    named + kwargs
  }

  /** The registry: module-level `_plugins` and `_plugin_config`. */
  class PluginRegistry {
    var hooks: map<string, seq<Hook>>
    var config: map<string, Data>

    constructor ()
      ensures hooks == map[] && config == map[]
    {
      hooks, config := map[], map[];
    }

    /** The callbacks registered for `event`, oldest first. */
    function HooksFor(event: string): seq<Hook>
      reads this
    {
      if event in hooks then hooks[event] else []
    }

    /** `register_hook`: appends the callback to the event's list, creating it if needed. */
    method RegisterHook(event: string, callback: Hook)
      modifies this`hooks
      ensures hooks == old(hooks)[event := old(HooksFor(event)) + [callback]]
      ensures forall d :: Emit(d, HooksFor(event)) == Step(Emit(d, old(HooksFor(event))), callback)
    {
      var registered := HooksFor(event);
      hooks := hooks[event := registered + [callback]];
      forall d ensures Emit(d, HooksFor(event)) == Step(Emit(d, registered), callback) {
        EmitAppend(d, registered, callback);
      }
    }

    /** `emit_event`: runs the event's callbacks in order over the data. */
    method EmitEvent(event: string, data: Data) returns (r: Data)
      ensures r == Emit(data, HooksFor(event))
      ensures event !in hooks ==> r == data
    {
      if event !in hooks {
        return data;
      }
      var callbacks := hooks[event];
      r := data;
      var i := 0;
      while i < |callbacks|
        invariant 0 <= i <= |callbacks|
        invariant r == Emit(data, callbacks[..i])
      {
        assert callbacks[..i + 1][..i] == callbacks[..i];
        var result := callbacks[i](r);
        match result {
          case Returned(VDict(d)) =>
            if d != map[] {
              r := r + d;
            }
          case _ =>
        }
        i := i + 1;
      }
      assert callbacks[..|callbacks|] == callbacks;
    }

    /** `configure_plugin`: replaces the plugin's settings. */
    method ConfigurePlugin(name: string, cfg: Data)
      modifies this`config
      ensures config == old(config)[name := cfg]
    {
      config := config[name := cfg];
    }

    /** `get_plugin_config`: the plugin's settings, or None. */
    function GetPluginConfig(name: string): (cfg: Option<Data>)
      reads this
      ensures cfg.Some? <==> name in config
      ensures cfg.Some? ==> cfg.value == config[name]
    {
      if name in config then Some(config[name]) else None
    }

    /**
     * `is_plugin_enabled`: False without settings or with empty settings, otherwise the
     * `enabled` setting (returned as stored), defaulting to False.
     */
    function IsPluginEnabled(name: string): (v: Value)
      reads this
      ensures v == EnabledIn(config, name)
    {
      EnabledIn(config, name)
    }

    /** `on_user_created`. */
    method OnUserCreated(username: string, clientIp: string, kwargs: Data) returns (r: Data)
      requires "username" !in kwargs && "client_ip" !in kwargs
      ensures r == Emit(EventData(map["username" := VStr(username), "client_ip" := VStr(clientIp)], kwargs),
                        HooksFor("user_created"))
    {
      r := EmitEvent("user_created",
                     EventData(map["username" := VStr(username), "client_ip" := VStr(clientIp)], kwargs));
    }

    /** `on_user_login`. */
    method OnUserLogin(username: string, clientIp: string, kwargs: Data) returns (r: Data)
      requires "username" !in kwargs && "client_ip" !in kwargs
      ensures r == Emit(EventData(map["username" := VStr(username), "client_ip" := VStr(clientIp)], kwargs),
                        HooksFor("user_login"))
    {
      r := EmitEvent("user_login",
                     EventData(map["username" := VStr(username), "client_ip" := VStr(clientIp)], kwargs));
    }

    /** `on_list_created`. */
    method OnListCreated(username: string, slug: string, title: string, isPublic: bool, kwargs: Data)
      returns (r: Data)
      requires "username" !in kwargs && "slug" !in kwargs && "title" !in kwargs && "is_public" !in kwargs
      ensures r == Emit(EventData(map["username" := VStr(username), "slug" := VStr(slug),
                                      "title" := VStr(title), "is_public" := VBool(isPublic)], kwargs),
                        HooksFor("list_created"))
    {
      r := EmitEvent("list_created",
                     EventData(map["username" := VStr(username), "slug" := VStr(slug),
                                   "title" := VStr(title), "is_public" := VBool(isPublic)], kwargs));
    }

    /** `on_list_viewed`. */
    method OnListViewed(username: string, slug: string, viewerIp: string, kwargs: Data) returns (r: Data)
      requires "username" !in kwargs && "slug" !in kwargs && "viewer_ip" !in kwargs
      ensures r == Emit(EventData(map["username" := VStr(username), "slug" := VStr(slug),
                                      "viewer_ip" := VStr(viewerIp)], kwargs),
                        HooksFor("list_viewed"))
    {
      r := EmitEvent("list_viewed",
                     EventData(map["username" := VStr(username), "slug" := VStr(slug),
                                   "viewer_ip" := VStr(viewerIp)], kwargs));
    }

    /** `on_list_updated`. */
    method OnListUpdated(username: string, slug: string, title: string, kwargs: Data) returns (r: Data)
      requires "username" !in kwargs && "slug" !in kwargs && "title" !in kwargs
      ensures r == Emit(EventData(map["username" := VStr(username), "slug" := VStr(slug),
                                      "title" := VStr(title)], kwargs),
                        HooksFor("list_updated"))
    {
      r := EmitEvent("list_updated",
                     EventData(map["username" := VStr(username), "slug" := VStr(slug),
                                   "title" := VStr(title)], kwargs));
    }

    /** `on_list_deleted`. */
    method OnListDeleted(username: string, slug: string, kwargs: Data) returns (r: Data)
      requires "username" !in kwargs && "slug" !in kwargs
      ensures r == Emit(EventData(map["username" := VStr(username), "slug" := VStr(slug)], kwargs),
                        HooksFor("list_deleted"))
    {
      r := EmitEvent("list_deleted",
                     EventData(map["username" := VStr(username), "slug" := VStr(slug)], kwargs));
    }

    /** `enhance_web_response`: the response data travels nested under "data". */
    method EnhanceWebResponse(responseType: string, data: Data) returns (r: Data)
      ensures r == Emit(map["response_type" := VStr(responseType), "data" := VDict(data)],
                        HooksFor("enhance_web_response"))
    {
      r := EmitEvent("enhance_web_response", map["response_type" := VStr(responseType), "data" := VDict(data)]);
    }
  }

  /**
   * With no callback registered for its event a builder hands back exactly the named
   * arguments and the keyword arguments; callbacks may overwrite values but the
   * keys always stay.
   */
  lemma BuilderData(named: Data, kwargs: Data, hooks: seq<Hook>)
    requires named.Keys !! kwargs.Keys
    ensures hooks == [] ==> Emit(EventData(named, kwargs), hooks) == EventData(named, kwargs)
    ensures named.Keys + kwargs.Keys <= Emit(EventData(named, kwargs), hooks).Keys
  {
    EmitKeepsKeys(EventData(named, kwargs), hooks);
  }
}
