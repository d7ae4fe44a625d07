/**
 * Where the router's connection parameters come from: the first entry of
 * `devices.yaml` next to the program when there is one, otherwise four
 * environment variables; then the check that every required parameter is
 * present and not empty.
 *
 * Reading the file and the environment is I/O: the parsed file (None when it
 * does not exist) and the environment are parameters here.
 */
module Inventory {
  import opened Wrappers

  /**
   * A value as `yaml.safe_load` builds it, with string keys only; `Null` is
   * Python's `None`.
   */
  datatype Yaml =
    | Null
    | Bool(b: bool)
    | Int(i: int)
    | Str(s: string)
    | List(items: seq<Yaml>)
    | Mapping(entries: map<string, Yaml>)

  /** Python's truth value of the value (`bool(v)`). */
  predicate Truthy(v: Yaml) {
    match v
    case Null => false
    case Bool(b) => b
    case Int(i) => i != 0
    case Str(s) => s != []
    case List(items) => items != []
    case Mapping(m) => m != map[]
  }

  /** The parameters the connection cannot do without. */
  const Required: set<string> := {"host", "username", "password", "device_type"}

  const DefaultDeviceType := "cisco_ios"

  /** The process environment: variable names and their values. */
  type Environment = map<string, string>

  /** `os.getenv(name)`: the value, or None when the variable is unset. */
  function GetEnv(env: Environment, name: string): (v: Yaml)
    ensures v.Str? <==> name in env
    ensures v.Str? ==> v.s == env[name]
  {
    if name in env then Str(env[name]) else Null
  }

  /** `load_device_from_env()`: the four parameters, each read from its own variable. */
  function FromEnv(env: Environment): (params: map<string, Yaml>)
    ensures params.Keys == Required
  {
    map["device_type" := Str(if "DEVICE_TYPE" in env then env["DEVICE_TYPE"] else DefaultDeviceType),
        "host" := GetEnv(env, "DEVICE_HOST"),
        "username" := GetEnv(env, "DEVICE_USERNAME"),
        "password" := GetEnv(env, "DEVICE_PASSWORD")]
  }

  /**
   * `load_device_from_yaml(path)`: the first element of the document when it
   * is a non-empty list, otherwise None (no file, an empty file, a document
   * that is not a list, or an empty list).
   */
  function FromYaml(file: Option<Yaml>): (entry: Yaml)
    ensures entry != Null ==> file.Some? && file.value.List? && file.value.items != [] && entry == file.value.items[0]
    ensures file.Some? && file.value.List? && file.value.items != [] ==> entry == file.value.items[0]
  {
    match file
    case None => Null
    case Some(devices) => if devices.List? && devices.items != [] then devices.items[0] else Null
  }

  /** `load_device_from_yaml(...) or load_device_from_env()`. */
  function Select(file: Option<Yaml>, env: Environment): (device: Yaml)
    ensures Truthy(device)
    ensures Truthy(FromYaml(file)) ==> device == FromYaml(file)
    ensures !Truthy(FromYaml(file)) ==> device.Mapping? && device.entries == FromEnv(env)
  {
    var entry := FromYaml(file);
    if Truthy(entry) then entry else Mapping(FromEnv(env))
  }

  /**
   * What `get_device` ends in: the parameters, the `ValueError` naming the
   * missing ones, or the `AttributeError` of calling `.get` on a value that
   * is not a mapping.
   */
  datatype DeviceResult =
    | Accepted(params: map<string, Yaml>)
    | MissingParameters(keys: set<string>)
    | NotAMapping

  /** The required keys that `device.get(k)` finds absent or falsy. */
  function Missing(m: map<string, Yaml>): (keys: set<string>)
    ensures keys <= Required
    ensures forall k :: k in Required ==> (k in keys <==> k !in m || !Truthy(m[k]))
  {
    set k | k in Required && (k !in m || !Truthy(m[k]))
  }

  /** The check of `get_device` applied to the selected parameters. */
  function Validate(device: Yaml): (r: DeviceResult)
    ensures r.NotAMapping? <==> !device.Mapping?
    ensures r.Accepted? ==> device == Mapping(r.params) && forall k :: k in Required ==> k in r.params && Truthy(r.params[k])
    ensures r.MissingParameters? ==> device.Mapping? && r.keys != {} && r.keys == Missing(device.entries)
  {
    match device
    case Mapping(m) =>
      var missing := Missing(m);
      if missing == {} then Accepted(m) else MissingParameters(missing)
    case _ => NotAMapping
  }

  /** `get_device()`. */
  function GetDevice(file: Option<Yaml>, env: Environment): (r: DeviceResult)
    ensures r.Accepted? ==> Mapping(r.params) == (if Truthy(FromYaml(file)) then FromYaml(file) else Mapping(FromEnv(env)))
    ensures r.NotAMapping? ==> Truthy(FromYaml(file))
  {
    Validate(Select(file, env))
  }

  /**
   * A device list whose first entry is truthy decides alone: the environment
   * is not read at all.
   */
  lemma FileTakesPrecedence(file: Option<Yaml>, env1: Environment, env2: Environment)
    requires Truthy(FromYaml(file))
    ensures GetDevice(file, env1) == GetDevice(file, env2) == Validate(FromYaml(file))
  {
  }

  /**
   * Without a usable first entry (no file, an empty one, a document that is
   * not a list, an empty list, or a falsy first element) the parameters come
   * from the environment alone.
   */
  lemma FalsyEntryFallsBack(file: Option<Yaml>, env: Environment)
    requires !Truthy(FromYaml(file))
    ensures GetDevice(file, env) == GetDevice(None, env) == Validate(Mapping(FromEnv(env)))
  {
  }

  /** A value the environment gives for a parameter is usable exactly when it is set and not empty. */
  predicate SetNonEmpty(env: Environment, name: string) {
    name in env && env[name] != []
  }

  /**
   * From the environment alone the parameters are accepted exactly when
   * DEVICE_HOST, DEVICE_USERNAME and DEVICE_PASSWORD are set and not empty
   * and DEVICE_TYPE is unset or not empty; otherwise the error names
   * precisely the parameters whose variables fail that test.
   */
  lemma {:induction false} EnvironmentOnly(env: Environment)
    ensures GetDevice(None, env).Accepted? <==>
              && SetNonEmpty(env, "DEVICE_HOST")
              && SetNonEmpty(env, "DEVICE_USERNAME")
              && SetNonEmpty(env, "DEVICE_PASSWORD")
              && ("DEVICE_TYPE" !in env || env["DEVICE_TYPE"] != [])
    ensures !GetDevice(None, env).NotAMapping?
    ensures GetDevice(None, env).MissingParameters? ==>
              var keys := GetDevice(None, env).keys;
              && ("host" in keys <==> !SetNonEmpty(env, "DEVICE_HOST"))
              && ("username" in keys <==> !SetNonEmpty(env, "DEVICE_USERNAME"))
              && ("password" in keys <==> !SetNonEmpty(env, "DEVICE_PASSWORD"))
              && ("device_type" in keys <==> "DEVICE_TYPE" in env && env["DEVICE_TYPE"] == [])
  {
    var m := FromEnv(env);
    assert Select(None, env) == Mapping(m);
    EnvironmentEntries(env);
  }

  /** Which of the environment's four parameters are truthy. */
  lemma EnvironmentEntries(env: Environment)
    ensures Truthy(FromEnv(env)["host"]) <==> SetNonEmpty(env, "DEVICE_HOST")
    ensures Truthy(FromEnv(env)["username"]) <==> SetNonEmpty(env, "DEVICE_USERNAME")
    ensures Truthy(FromEnv(env)["password"]) <==> SetNonEmpty(env, "DEVICE_PASSWORD")
    ensures Truthy(FromEnv(env)["device_type"]) <==> "DEVICE_TYPE" !in env || env["DEVICE_TYPE"] != []
  {
  }

  /** With DEVICE_TYPE unset, accepted parameters from the environment name a Cisco IOS router. */
  lemma DefaultDeviceTypeIsCiscoIos(env: Environment)
    requires "DEVICE_TYPE" !in env && GetDevice(None, env).Accepted?
    ensures GetDevice(None, env).params["device_type"] == Str("cisco_ios")
  {
  }

  /**
   * Whatever the file and the environment, accepted parameters hold every
   * required key with a truthy value, and a rejection names at least one
   * required key and no other.
   */
  lemma GetDeviceOutcomes(file: Option<Yaml>, env: Environment)
    ensures var r := GetDevice(file, env);
            && (r.Accepted? ==> forall k :: k in Required ==> k in r.params && Truthy(r.params[k]))
            && (r.MissingParameters? ==> r.keys != {} && r.keys <= Required)
            && (r.NotAMapping? <==> Truthy(FromYaml(file)) && !FromYaml(file).Mapping?)
  {
  }
}
