/**
 * The command line: every argument `key=value` sets `config[key]`, and the
 * template, output and music directories fall back to their defaults when
 * the matching key is not set to a non-empty value.
 */
module Config {
  import opened Wrappers
  import opened JsStrings
  import Collections

  /** The `config` object: its own string-valued properties. */
  type Config = map<string, string>

  /**
   * The key and value an argument sets: `val.split("=")` gives the text
   * before the first '=' and the text between the first and the second;
   * None when the argument holds no '='.
   */
  function Setting(arg: string): Option<(string, string)> {
    if IndexOf(arg, "=").Some? then
      var parts := Split(arg, "=");
      Some((parts[0], parts[1]))
    else None
  }

  /**
   * One step of the argument loop. Assigning a string to the property
   * "__proto__" of an ordinary object changes nothing, so that key is
   * never stored.
   */
  function ApplyArg(config: Config, arg: string): Config {
    match Setting(arg)
    case None => config
    case Some((key, value)) => if key == "__proto__" then config else config[key := value]
  }

  /** The configuration the arguments build, first to last. */
  function ConfigOf(args: seq<string>): Config {
    if args == [] then map[] else ApplyArg(ConfigOf(args[..|args| - 1]), args[|args| - 1])
  }

  /** The `process.argv.forEach` loop that fills `config`. */
  method ParseArgs(argv: seq<string>) returns (config: Config)
    ensures config == ConfigOf(argv)
  {
    config := map[];
    var i := 0;
    while i < |argv|
      invariant 0 <= i <= |argv|
      invariant config == ConfigOf(argv[..i])
    {
      var val := argv[i];
      if IndexOf(val, "=").Some? {
        var parts := Split(val, "=");
        if parts[0] != "__proto__" {
          config := config[parts[0] := parts[1]];
        }
      }
      i := i + 1;
      assert argv[..i][..i - 1] == argv[..i - 1];
    }
    assert argv[..i] == argv;
  }

  predicate NoEquals(s: string) {
    forall i :: 0 <= i < |s| ==> s[i] != '='
  }

  lemma FreeOfEquals(s: string)
    requires NoEquals(s)
    ensures Free(s, "=") && IndexOf(s, "=") == None
  {
    forall j: nat | j <= |s| ensures !OccursAt(s, "=", j) {
      if j + 1 <= |s| { assert s[j..j + 1][0] == s[j]; }
    }
    IndexOfSpec(s, "=");
  }

  /** The first '=' of `k + "=" + tail` is the one after `k` when `k` holds none. */
  lemma FirstEquals(k: string, tail: string)
    requires NoEquals(k)
    ensures IndexOf(k + "=" + tail, "=") == Some(|k|)
  {
    var s := k + "=" + tail;
    assert s[|k|..|k| + 1] == "=";
    assert OccursAt(s, "=", |k|);
    forall j: nat | j < |k| ensures !OccursAt(s, "=", j) {
      assert s[j..j + 1][0] == k[j];
    }
    IndexOfIs(s, "=", |k|);
  }

  /** Splitting at '=' cuts off the text before the first one. */
  lemma SplitFirst(k: string, tail: string)
    requires NoEquals(k)
    ensures Split(k + "=" + tail, "=") == [k] + Split(tail, "=")
  {
    var arg := k + "=" + tail;
    FirstEquals(k, tail);
    SplitAt(arg, "=", |k|);
    assert arg[..|k|] == k;
    assert arg[|k| + 1..] == tail;
  }

  /**
   * An argument `k=v` or `k=v=...` with no '=' in `k` or `v` sets key `k`
   * to `v`.
   */
  lemma SettingOf(k: string, v: string, rest: string)
    requires NoEquals(k) && NoEquals(v)
    requires rest == [] || rest[0] == '='
    ensures Setting(k + "=" + v + rest) == Some((k, v))
  {
    var arg := k + "=" + v + rest;
    assert arg == k + "=" + (v + rest);
    FirstEquals(k, v + rest);
    SplitFirst(k, v + rest);
    if rest == [] {
      FreeOfEquals(v);
      assert v + rest == v;
    } else {
      assert v + rest == v + "=" + rest[1..];
      SplitFirst(v, rest[1..]);
    }
  }

  /** An argument without '=' leaves the configuration as it is. */
  lemma ApplyArgWithoutEquals(config: Config, arg: string)
    requires NoEquals(arg)
    ensures ApplyArg(config, arg) == config
  {
    FreeOfEquals(arg);
  }

  /** Argument `args[i]` sets key `k`. */
  predicate SetsKey(arg: string, k: string) {
    Setting(arg).Some? && Setting(arg).value.0 == k
  }

  lemma ConfigOfSnoc(args: seq<string>, arg: string)
    ensures ConfigOf(args + [arg]) == ApplyArg(ConfigOf(args), arg)
  {
    Collections.SnocParts(args, arg);
  }

  /** One argument sets key `k` exactly when it names it, and leaves every other key alone. */
  lemma ApplyArgKey(config: Config, arg: string, k: string)
    requires k != "__proto__"
    ensures k in ApplyArg(config, arg) <==> SetsKey(arg, k) || k in config
    ensures SetsKey(arg, k) ==> ApplyArg(config, arg)[k] == Setting(arg).value.1
    ensures !SetsKey(arg, k) && k in config ==> ApplyArg(config, arg)[k] == config[k]
  {
  }

  /**
   * A key is configured exactly when some argument sets it, and its value
   * is the one the last such argument gives: a later argument overrides
   * an earlier one.
   */
  lemma {:induction false} ConfigOfKey(args: seq<string>, k: string)
    requires k != "__proto__"
    ensures k in ConfigOf(args) <==> exists i :: 0 <= i < |args| && SetsKey(args[i], k)
    ensures k in ConfigOf(args) ==>
      exists i :: (0 <= i < |args| && SetsKey(args[i], k)
        && ConfigOf(args)[k] == Setting(args[i]).value.1
        && forall j :: i < j < |args| ==> !SetsKey(args[j], k))
  {
    if args != [] {
      var init, last := args[..|args| - 1], args[|args| - 1];
      Collections.FrontLast(args);
      ConfigOfSnoc(init, last);
      ApplyArgKey(ConfigOf(init), last, k);
      ConfigOfKey(init, k);
      if SetsKey(last, k) {
        assert 0 <= |args| - 1 < |args| && SetsKey(args[|args| - 1], k);
      } else {
        if k in ConfigOf(init) {
          var i :| 0 <= i < |init| && SetsKey(init[i], k)
            && ConfigOf(init)[k] == Setting(init[i]).value.1
            && forall j :: i < j < |init| ==> !SetsKey(init[j], k);
          assert args[i] == init[i];
          forall j | i < j < |args| ensures !SetsKey(args[j], k) {
            if j < |args| - 1 { assert args[j] == init[j]; }
          }
        }
        if exists i :: 0 <= i < |args| && SetsKey(args[i], k) {
          var i :| 0 <= i < |args| && SetsKey(args[i], k);
          assert i < |args| - 1 && init[i] == args[i];
        }
      }
    }
  }

  /** `config[key]` when it is set to a non-empty string: the source's truthiness test. */
  function Given(config: Config, key: string): Option<string> {
    if key in config && config[key] != "" then Some(config[key]) else None
  }

  /** The template directory: under the working directory when given, else the bundled one beside the script. */
  function TemplatesDirectory(config: Config, cwd: string, scriptDir: string): string {
    match Given(config, "templates")
    case Some(t) => cwd + "/" + t
    case None => scriptDir + "/templates"
  }

  /** The output root: under the working directory when given, else the working directory. */
  function OutputDirectory(config: Config, cwd: string): string {
    match Given(config, "output")
    case Some(o) => cwd + "/" + o
    case None => cwd
  }

  /** The music directory: under the working directory when given, else "music" in it. */
  function MusicDirectory(config: Config, cwd: string): string {
    match Given(config, "music")
    case Some(m) => cwd + "/" + m
    case None => cwd + "/music"
  }

  /** A last argument `key=` sets the key to "", which the truthiness test treats as not given. */
  lemma ClearedKey(args: seq<string>, key: string)
    requires NoEquals(key) && key != "__proto__"
    ensures Given(ConfigOf(args + [key + "="]), key) == None
  {
    SettingOf(key, "", "");
    assert key + "=" + "" + "" == key + "=";
    ConfigOfSnoc(args, key + "=");
  }

  /** So a directory given as `key=` falls back to its default. */
  lemma EmptyValueKeepsDefaults(args: seq<string>, cwd: string, scriptDir: string)
    ensures OutputDirectory(ConfigOf(args + ["output="]), cwd) == cwd
    ensures MusicDirectory(ConfigOf(args + ["music="]), cwd) == cwd + "/music"
    ensures TemplatesDirectory(ConfigOf(args + ["templates="]), cwd, scriptDir) == scriptDir + "/templates"
  {
    ClearedKey(args, "output");
    assert "output" + "=" == "output=";
    ClearedKey(args, "music");
    assert "music" + "=" == "music=";
    ClearedKey(args, "templates");
    assert "templates" + "=" == "templates=";
  }

  /** A last argument `output=<dir>` with a non-empty directory puts the output under the working directory. */
  lemma OutputGiven(args: seq<string>, dir: string, cwd: string)
    requires dir != "" && NoEquals(dir)
    ensures OutputDirectory(ConfigOf(args + ["output=" + dir]), cwd) == cwd + "/" + dir
  {
    SettingOf("output", dir, "");
    assert "output" + "=" + dir + "" == "output=" + dir;
    ConfigOfSnoc(args, "output=" + dir);
  }
}
