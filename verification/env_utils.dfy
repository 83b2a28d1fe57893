/**
 * The layered settings store of Markdown2Doc (EnvUtils).  A read falls
 * through four tiers in a fixed order: the strongly-typed application
 * settings, the JSON dictionary kept in the "DynamicSettings" setting, the
 * environment variables (process, then user, then machine scope) and the
 * bundled resource strings.  A write goes to the first of the first three
 * tiers that can take the key.
 */
module EnvUtils {
  import opened Wrappers
  import opened Text

  /** Environment-variable scopes; reads consult them in this order. */
  datatype Scope = Process | User | Machine

  /** The text held by the "DynamicSettings" setting, as it deserialises. */
  datatype Blob =
    | Blank                               // null, empty or white space
    | Corrupt                             // not a JSON object of strings, or the JSON literal null
    | Json(entries: map<string, string>)  // a JSON object of strings

  /** The exceptions SetString throws: ArgumentNullException and InvalidOperationException. */
  datatype SetError = KeyIsBlank | CannotPersist

  /** Environment.SetEnvironmentVariable on one scope: a null or empty value
      deletes the variable, any other value creates or replaces it. */
  function Assign(vars: map<string, string>, name: string, value: Option<string>): (r: map<string, string>)
    ensures IsNullOrEmpty(value) ==> name !in r
    ensures !IsNullOrEmpty(value) ==> name in r && r[name] == value.value
    ensures r - {name} == vars - {name}
  {
    if IsNullOrEmpty(value) then vars - {name} else vars[name := value.value]
  }

  /** The configuration store: the settings object, the environment of the
      process, and the resource strings it falls back to. */
  class SettingsStore {
    /** The strongly-typed settings by name, with their current values (null
        after a reset); a name outside this map has no typed setting. */
    var typed: map<string, Option<string>>
    /** Whether a user-scoped string setting named "DynamicSettings" is declared. */
    const hasDynamicSlot: bool
    /** What that setting holds. */
    var blob: Blob
    var processEnv: map<string, string>
    var userEnv: map<string, string>
    var machineEnv: map<string, string>
    /** The scopes whose variables this process is allowed to set. */
    const writableScopes: set<Scope>
    /** The bundled resource strings, by key (read only). */
    const resources: map<string, string>

    constructor (typed: map<string, Option<string>>, hasDynamicSlot: bool, blob: Blob,
                 processEnv: map<string, string>, userEnv: map<string, string>,
                 machineEnv: map<string, string>, writableScopes: set<Scope>,
                 resources: map<string, string>)
      ensures this.typed == typed && this.hasDynamicSlot == hasDynamicSlot && this.blob == blob
      ensures this.processEnv == processEnv && this.userEnv == userEnv && this.machineEnv == machineEnv
      ensures this.writableScopes == writableScopes && this.resources == resources
    {
      this.typed := typed;
      this.hasDynamicSlot := hasDynamicSlot;
      this.blob := blob;
      this.processEnv := processEnv;
      this.userEnv := userEnv;
      this.machineEnv := machineEnv;
      this.writableScopes := writableScopes;
      this.resources := resources;
    }

    /** The variables of one scope. */
    function EnvAt(scope: Scope): map<string, string>
      reads this
    {
      match scope
      case Process => processEnv
      case User => userEnv
      case Machine => machineEnv
    }

    /** `GetEnvironmentVariable(name, Process) ?? ... User ?? ... Machine`: the
        value of the first scope that defines the variable, even an empty one. */
    function EnvValue(name: string): (v: Option<string>)
      reads this
      ensures v.None? <==> name !in processEnv && name !in userEnv && name !in machineEnv
      ensures name in processEnv ==> v == Some(processEnv[name])
      ensures name !in processEnv && name in userEnv ==> v == Some(userEnv[name])
      ensures name !in processEnv && name !in userEnv && name in machineEnv ==> v == Some(machineEnv[name])
    {
      if name in processEnv then Some(processEnv[name])
      else if name in userEnv then Some(userEnv[name])
      else if name in machineEnv then Some(machineEnv[name])
      else None
    }

    /** ReadFromResxFallback: a resource string, only when it is not empty. */
    function ResourceString(key: string): (v: Option<string>)
      reads this
      ensures v.Some? ==> v.value != "" && key in resources && v.value == resources[key]
      ensures key in resources && resources[key] != "" ==> v.Some?
    {
      if key in resources && resources[key] != "" then Some(resources[key]) else None
    }

    /** ReadDynamicSettingsDictionary: null when the setting is not declared;
        an empty dictionary when it is blank or does not parse. */
    function ReadDynamicSettingsDictionary(): (d: Option<map<string, string>>)
      reads this
      ensures d.None? <==> !hasDynamicSlot
      ensures d.Some? && blob.Json? ==> d.value == blob.entries
      ensures d.Some? && !blob.Json? ==> d.value == map[]
    {
      if !hasDynamicSlot then None
      else match blob
        case Json(entries) => Some(entries)
        case _ => Some(map[])
    }

    /** The dynamic dictionary as SetString and Remove start from it. */
    function DynamicEntries(): map<string, string>
      reads this
    {
      ReadDynamicSettingsDictionary().GetOr(map[])
    }

    /** Whether `key` has a typed setting whose value is not null. */
    predicate HasTypedValue(key: string)
      reads this
    {
      key in typed && typed[key].Some?
    }

    /** GetString: the typed value when there is one (even an empty one);
        otherwise the first non-empty value of the dynamic dictionary, the
        environment and the resources; null for a blank key. */
    function GetString(key: string): (r: Option<string>)
      reads this
      ensures IsBlank(key) ==> r.None?
      ensures !IsBlank(key) && HasTypedValue(key) ==> r == typed[key]
      ensures r.Some? && !HasTypedValue(key) ==> r.value != ""
      ensures (!IsBlank(key) && !HasTypedValue(key) && key in DynamicEntries() && DynamicEntries()[key] != "")
                ==> r == Some(DynamicEntries()[key])
      ensures (!IsBlank(key) && !HasTypedValue(key) && (key !in DynamicEntries() || DynamicEntries()[key] == ""))
                ==> r == if IsNullOrEmpty(EnvValue(key)) then ResourceString(key) else EnvValue(key)
    {
      if IsBlank(key) then None
      else if HasTypedValue(key) then typed[key]
      else
        var dyn := ReadDynamicSettingsDictionary();
        if dyn.Some? && key in dyn.value && dyn.value[key] != "" then Some(dyn.value[key])
        else
          var v := EnvValue(key);
          if !IsNullOrEmpty(v) then v else ResourceString(key)
    }

    /** ListDynamicKeys: the keys of the dynamic dictionary; none when the
        setting is missing, blank or does not parse. */
    function ListDynamicKeys(): (keys: set<string>)
      reads this
      ensures hasDynamicSlot && blob.Json? ==> keys == blob.entries.Keys
      ensures !hasDynamicSlot || !blob.Json? ==> keys == {}
    {
      match ReadDynamicSettingsDictionary()
      case Some(d) => d.Keys
      case None => {}
    }

    /** WriteDynamicSettingsDictionary: serialises `dict` into the setting and saves it. */
    method WriteDynamicSettingsDictionary(dict: map<string, string>)
      modifies this`blob
      ensures blob == Json(dict)
    {
      blob := Json(dict);
    }

    /** Environment.SetEnvironmentVariable(name, value, scope) on a scope this process may write. */
    method SetEnvironmentVariable(name: string, value: Option<string>, scope: Scope)
      requires scope in writableScopes
      modifies this`processEnv, this`userEnv, this`machineEnv
      ensures EnvAt(scope) == Assign(old(EnvAt(scope)), name, value)
      ensures OtherScopesUnchanged(scope)
    {
      match scope
      case Process => processEnv := Assign(processEnv, name, value);
      case User => userEnv := Assign(userEnv, name, value);
      case Machine => machineEnv := Assign(machineEnv, name, value);
    }

    /** The state SetString(key, value, target) leaves behind, given its outcome r. */
    twostate predicate SetStringDone(key: string, value: Option<string>, target: Scope, new r: Outcome<SetError>)
      reads this
    {
      if IsBlank(key) then
        r == Fail(KeyIsBlank) && unchanged(this)
      else if key in old(typed) then
        && r == Pass && typed == old(typed)[key := Some(value.GetOr(""))]
        && blob == old(blob) && EnvUnchanged()
      else if hasDynamicSlot then
        && r == Pass && typed == old(typed) && EnvUnchanged()
        && blob == match value
                   case None =>
                     if key in old(DynamicEntries()) then Json(old(DynamicEntries()) - {key}) else old(blob)
                   case Some(v) => Json(old(DynamicEntries())[key := v])
      else if target in writableScopes then
        && r == Pass && typed == old(typed) && blob == old(blob)
        && EnvAt(target) == Assign(old(EnvAt(target)), key, value)
        && OtherScopesUnchanged(target)
      else
        r == Fail(CannotPersist) && unchanged(this)
    }

    /** Every scope but `scope` keeps its variables. */
    twostate predicate OtherScopesUnchanged(scope: Scope)
      reads this
    {
      && (scope != Process ==> processEnv == old(processEnv))
      && (scope != User ==> userEnv == old(userEnv))
      && (scope != Machine ==> machineEnv == old(machineEnv))
    }

    /** No environment variable changes. */
    twostate predicate EnvUnchanged()
      reads this
    {
      processEnv == old(processEnv) && userEnv == old(userEnv) && machineEnv == old(machineEnv)
    }

    /** SetString: stores into the typed setting if there is one, else into
        the dynamic dictionary if it is declared, else into the environment
        at scope `target`; throws for a blank key and when no tier can take it. */
    method SetString(key: string, value: Option<string>, target: Scope) returns (r: Outcome<SetError>)
      modifies this
      ensures SetStringDone(key, value, target, r)
      // what a following GetString and ListDynamicKeys see
      ensures r.Pass? && key in old(typed) ==> GetString(key) == Some(value.GetOr(""))
      ensures (r.Pass? && key !in old(typed) && hasDynamicSlot && !IsNullOrEmpty(value))
                ==> GetString(key) == value && key in ListDynamicKeys()
      ensures r.Pass? && key !in old(typed) && hasDynamicSlot && value.None? ==> key !in ListDynamicKeys()
      ensures (&& r.Pass? && key !in old(typed) && !hasDynamicSlot && !IsNullOrEmpty(value)
               && (target != Process ==> key !in old(processEnv))
               && (target == Machine ==> key !in old(userEnv)))
                ==> GetString(key) == value
    {
      if IsBlank(key) {
        return Fail(KeyIsBlank);
      }
      if key in typed {
        typed := typed[key := Some(value.GetOr(""))];
        return Pass;
      }
      if hasDynamicSlot {
        var dict := ReadDynamicSettingsDictionary().GetOr(map[]);
        if value.None? {
          if key in dict {
            dict := dict - {key};
            WriteDynamicSettingsDictionary(dict);
          }
        } else {
          dict := dict[key := value.value];
          WriteDynamicSettingsDictionary(dict);
        }
        return Pass;
      }
      if target in writableScopes {
        SetEnvironmentVariable(key, value, target);
        return Pass;
      }
      return Fail(CannotPersist);
    }

    /** Remove: resets a typed setting to null; otherwise, when the dynamic
        dictionary is declared, deletes the key from it (and stops there even
        if the key was absent); otherwise clears the process-scope variable. */
    method Remove(key: string)
      modifies this
      ensures IsBlank(key) ==> unchanged(this)
      ensures !IsBlank(key) && key in old(typed) ==>
        && typed == old(typed)[key := None] && blob == old(blob) && EnvUnchanged()
        && !HasTypedValue(key)
      ensures !IsBlank(key) && key !in old(typed) && hasDynamicSlot ==>
        && typed == old(typed) && EnvUnchanged()
        && blob == (if key in old(DynamicEntries()) then Json(old(DynamicEntries()) - {key}) else old(blob))
        && key !in ListDynamicKeys()
      ensures !IsBlank(key) && key !in old(typed) && !hasDynamicSlot ==>
        && typed == old(typed) && blob == old(blob) && userEnv == old(userEnv) && machineEnv == old(machineEnv)
        && processEnv == (if Process in writableScopes then old(processEnv) - {key} else old(processEnv))
    {
      if IsBlank(key) {
        return;
      }
      if key in typed {
        typed := typed[key := None];
        return;
      }
      if hasDynamicSlot {
        var dict := ReadDynamicSettingsDictionary().GetOr(map[]);
        if key in dict {
          dict := dict - {key};
          WriteDynamicSettingsDictionary(dict);
        }
        return;
      }
      if Process in writableScopes {
        SetEnvironmentVariable(key, None, Process);
      }
    }
  }
}
