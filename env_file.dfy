/**
 * `load_env_file`: reads a `.env` file line by line into the process environment.
 * The environment is an explicit string map; the file is its list of lines, or `None`
 * when it does not exist.
 */
module EnvFile {
  import opened Wrappers
  import opened PyStr

  type Env = map<string, string>

  /** `os.environ.get(name, '')` */
  function Lookup(env: Env, name: string): string {
    if name in env then env[name] else ""
  }

  /** A stripped line the loader acts on: not blank, not a `#` comment, and holding an `=`. */
  predicate IsAssignment(line: string) {
    line != [] && line[0] != '#' && '=' in line
  }

  /** The key of an assignment line: everything before its first `=`, untrimmed. */
  function LineKey(line: string): string
    requires IsAssignment(line)
  {
    SplitOnce(line, '=').0
  }

  /** A value of the form `${NAME}`: it starts with `${` and ends with `}`. */
  predicate IsReference(value: string) {
    StartsWith(value, "${") && EndsWith(value, "}")
  }

  /** The NAME inside a `${NAME}` value (`value[2:-1]`). */
  function ReferencedName(value: string): (name: string)
    requires IsReference(value)
    ensures value == "${" + name + "}"
  {
    assert value[1] == '{' by { assert value[..2][1] == value[1]; }
    assert value[|value| - 1] == '}' by { assert value[|value| - 1..][0] == value[|value| - 1]; }
    value[2..|value| - 1]
  }

  /** The value actually stored for a raw value: a reference is replaced by what the
      environment holds at that moment (empty when unset); any other value stays. */
  function Expand(env: Env, value: string): string {
    if IsReference(value) then Lookup(env, ReferencedName(value)) else value
  }

  /**
   * The effect of one line of the file. A line that is not an assignment once stripped
   * changes nothing; an assignment can add or overwrite its own key only, never deletes,
   * and never stores an empty value.
   */
  function ApplyLine(env: Env, raw: string): (r: Env)
    ensures !IsAssignment(Strip(raw)) ==> r == env
    ensures IsAssignment(Strip(raw)) ==>
      forall k :: k != LineKey(Strip(raw)) ==> (k in r <==> k in env) && (k in r ==> r[k] == env[k])
    ensures env.Keys <= r.Keys
    ensures forall k :: k in r ==> (k in env && r[k] == env[k]) || r[k] != ""
  {
    var line := Strip(raw);
    if !IsAssignment(line) then env
    else
      var (key, value) := SplitOnce(line, '=');
      var v := Expand(env, value);
      if v == "" then env else env[key := v]
  }

  /** The effect of the lines of a file, applied in order, each seeing what the earlier
      ones wrote. Keys are never removed, and every entry that differs from the initial
      environment holds a non-empty value. */
  function ApplyLines(env: Env, lines: seq<string>): (r: Env)
    ensures env.Keys <= r.Keys
    ensures forall k :: k in r ==> (k in env && r[k] == env[k]) || r[k] != ""
    decreases |lines|
  {
    if lines == [] then env
    else ApplyLine(ApplyLines(env, lines[..|lines| - 1]), lines[|lines| - 1])
  }

  /** A line `KEY=VALUE` (once stripped) whose KEY holds no `=` and is not a comment stores
      the expansion of VALUE under KEY exactly, VALUE keeping any later `=`; an empty
      expansion leaves the environment as it was, so an existing entry survives. */
  lemma {:induction false} ApplyAssignment(env: Env, raw: string, key: string, value: string)
    requires Strip(raw) == key + "=" + value
    requires '=' !in key
    requires !StartsWith(key, "#")
    ensures var v := Expand(env, value);
      ApplyLine(env, raw) == if v == "" then env else env[key := v]
  {
    SplitOnceAt(key, value, '=');
    assert key + "=" + value == key + ['='] + value;
    assert Strip(raw)[0] != '#' by {
      if key == [] { assert Strip(raw)[0] == '='; } else { assert Strip(raw)[0] == key[0]; }
    }
  }

  /** `${NAME}` expands to the entry for NAME, or to the empty string when it is unset. */
  lemma {:induction false} ExpandReference(env: Env, name: string)
    ensures Expand(env, "${" + name + "}") == Lookup(env, name)
  {
    var value := "${" + name + "}";
    assert IsReference(value) by {
      assert value[..2] == "${";
      assert value[|value| - 1..] == "}";
    }
    var n := ReferencedName(value);
    assert |n| == |name|;
    assert n == value[2..|value| - 1] == name;
  }

  /** Applying a file in two parts is applying it whole. */
  lemma {:induction false} ApplyLinesAppend(env: Env, a: seq<string>, b: seq<string>)
    ensures ApplyLines(env, a + b) == ApplyLines(ApplyLines(env, a), b)
    decreases |b|
  {
    if b == [] {
      assert a + b == a;
    } else {
      assert (a + b)[..|a + b| - 1] == a + b[..|b| - 1];
      assert (a + b)[|a + b| - 1] == b[|b| - 1];
      ApplyLinesAppend(env, a, b[..|b| - 1]);
    }
  }

  /** One more line of the file is one more application of `ApplyLine`. */
  lemma {:induction false} ApplyLinesSnoc(env: Env, lines: seq<string>, i: nat)
    requires i < |lines|
    ensures ApplyLines(env, lines[..i + 1]) == ApplyLine(ApplyLines(env, lines[..i]), lines[i])
  {
    assert lines[..i + 1][..i] == lines[..i];
  }

  /** A key that no assignment line of the file names keeps its entry, or its absence. */
  lemma {:induction false} UnnamedKeyUnchanged(env: Env, lines: seq<string>, k: string)
    requires forall j :: 0 <= j < |lines| && IsAssignment(Strip(lines[j])) ==> LineKey(Strip(lines[j])) != k
    ensures k in ApplyLines(env, lines) <==> k in env
    ensures k in env ==> ApplyLines(env, lines)[k] == env[k]
    decreases |lines|
  {
    if lines != [] {
      var init := lines[..|lines| - 1];
      forall j | 0 <= j < |init| && IsAssignment(Strip(init[j])) ensures LineKey(Strip(init[j])) != k {
        assert init[j] == lines[j];
      }
      UnnamedKeyUnchanged(env, init, k);
    }
  }

  /** A two-line file is its first line applied, then its second. */
  lemma {:induction false} ApplyTwoLines(env: Env, l1: string, l2: string)
    ensures ApplyLines(env, [l1, l2]) == ApplyLine(ApplyLine(env, l1), l2)
  {
    assert [l1, l2][..1] == [l1];
    assert [l1][..0] == [];
    assert ApplyLines(env, [l1]) == ApplyLine(ApplyLines(env, []), l1);
  }

  /** A later line can refer to a key an earlier line of the same file wrote. */
  lemma {:induction false} ReferenceToEarlierLine(env: Env, a: string, b: string, v: string)
    requires v != "" && !IsReference(v)
    requires '=' !in a && '=' !in b
    requires !StartsWith(a, "#") && !StartsWith(b, "#")
    requires Strip(a + "=" + v) == a + "=" + v
    requires Strip(b + "=" + ("${" + a + "}")) == b + "=" + ("${" + a + "}")
    ensures ApplyLines(env, [a + "=" + v, b + "=" + ("${" + a + "}")]) == env[a := v][b := v]
  {
    var l1, l2 := a + "=" + v, b + "=" + ("${" + a + "}");
    ApplyTwoLines(env, l1, l2);
    ApplyAssignment(env, l1, a, v);
    SecondLineExpands(env[a := v], a, b, v, l2);
  }

  /** The second line `B=${A}`, applied where A holds `v`, stores `v` under B. */
  lemma {:induction false} SecondLineExpands(env: Env, a: string, b: string, v: string, l2: string)
    requires v != "" && a in env && env[a] == v
    requires '=' !in b && !StartsWith(b, "#")
    requires l2 == b + "=" + ("${" + a + "}") && Strip(l2) == l2
    ensures ApplyLine(env, l2) == env[b := v]
  {
    ApplyAssignment(env, l2, b, "${" + a + "}");
    ExpandReference(env, a);
  }

  /** The process environment, which `load_env_file` updates in place. */
  class Environ {
    var vars: Env

    constructor (initial: Env)
      ensures vars == initial
    {
      vars := initial;
    }

    /** `load_env_file`: false, with nothing changed, when the file is missing; otherwise
        every line is applied in order and the result is true. */
    method LoadEnvFile(file: Option<seq<string>>) returns (found: bool)
      modifies this
      ensures found <==> file.Some?
      ensures vars == if file.Some? then ApplyLines(old(vars), file.value) else old(vars)
    {
      if file.None? {
        return false;
      }
      var lines := file.value;
      for i := 0 to |lines|
        invariant vars == ApplyLines(old(vars), lines[..i])
      {
        ApplyLinesSnoc(old(vars), lines, i);
        ghost var before := vars;
        var line := Strip(lines[i]);
        if line != [] && line[0] != '#' && '=' in line {
          var kv := SplitOnce(line, '=');
          var key, value := kv.0, kv.1;
          if IsReference(value) {
            value := Lookup(vars, ReferencedName(value));
          }
          assert value == Expand(before, kv.1);
          if value != "" {
            vars := vars[key := value];
          }
        }
        assert vars == ApplyLine(before, lines[i]);
      }
      assert lines[..|lines|] == lines;
      return true;
    }
  }
}
