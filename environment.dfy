/** Environment-variable lookups shared by the handlers and the lead exporter. */
module Environment {
  import opened Text

  /** The process environment: a variable that is not set is not a key. */
  type Env = map<string, string>

  /** `(os.getenv(name) or "").strip()` and `(process.env[name] || "").trim()`. */
  function GetEnv(env: Env, name: string): (r: string)
    ensures name in env ==> r == Trim(env[name])
    ensures name !in env ==> r == ""
    ensures r == [] <==> name !in env || AllSpace(env[name])
    ensures r != [] ==> !IsSpace(r[0]) && !IsSpace(r[|r| - 1])
  {
    if name in env then Trim(env[name]) else ""
  }

  /** Python `a or b` and JavaScript `a || b` on two strings. */
  function OrElse(a: string, b: string): (r: string)
    ensures r == "" <==> a == "" && b == ""
    ensures a != "" ==> r == a
  {
    if a != "" then a else b
  }

  /** Reference lookup over a list of names: the trimmed value of the first name,
      in list order, whose trimmed value is non-empty, or "" when there is none. */
  function FirstSet(env: Env, names: seq<string>): (r: string)
    ensures names == [] ==> r == ""
    ensures r != "" ==> !IsSpace(r[0]) && !IsSpace(r[|r| - 1])
  {
    if names == [] then "" else OrElse(GetEnv(env, names[0]), FirstSet(env, names[1..]))
  }

  /** FirstSet is empty exactly when every listed name is unset or blank. */
  lemma {:induction false} FirstSetEmpty(env: Env, names: seq<string>)
    ensures FirstSet(env, names) == "" <==> forall i :: 0 <= i < |names| ==> GetEnv(env, names[i]) == ""
  {
    if names != [] {
      var rest := names[1..];
      FirstSetEmpty(env, rest);
      forall i | 0 <= i < |rest|
        ensures rest[i] == names[i + 1]
      {
        TailIndex(names, i);
      }
    }
  }

  /** FirstSet returns the value of the first set name, whatever comes after it. */
  lemma {:induction false} FirstSetPicksFirst(env: Env, names: seq<string>, k: nat)
    requires k < |names| && GetEnv(env, names[k]) != ""
    requires forall i :: 0 <= i < k ==> GetEnv(env, names[i]) == ""
    ensures FirstSet(env, names) == GetEnv(env, names[k])
  {
    if k > 0 {
      UnsetInTail(env, names, k);
      FirstSetPicksFirst(env, names[1..], k - 1);
      FirstSetSkipsBlank(env, names);
    }
  }

  /** The names before `k` stay unset when the first name is dropped. */
  lemma UnsetInTail(env: Env, names: seq<string>, k: nat)
    requires 0 < k < |names|
    requires forall i :: 0 <= i < k ==> GetEnv(env, names[i]) == ""
    ensures names[1..][k - 1] == names[k]
    ensures forall i :: 0 <= i < k - 1 ==> GetEnv(env, names[1..][i]) == ""
  {
    forall i | 0 <= i < k - 1
      ensures GetEnv(env, names[1..][i]) == ""
    {
      TailIndex(names, i);
    }
  }

  /** An unset or blank first name is passed over. */
  lemma FirstSetSkipsBlank(env: Env, names: seq<string>)
    requires names != [] && GetEnv(env, names[0]) == ""
    ensures FirstSet(env, names) == FirstSet(env, names[1..])
  {
  }

  lemma TailIndex(names: seq<string>, i: nat)
    requires i + 1 < |names|
    ensures names[1..][i] == names[i + 1]
  {
  }

  /** FirstSet tries its first name before the rest. */
  lemma FirstSetCons(env: Env, name: string, rest: seq<string>)
    ensures FirstSet(env, [name] + rest) == OrElse(GetEnv(env, name), FirstSet(env, rest))
  {
    assert ([name] + rest)[1..] == rest;
  }

  /** FirstSet over one name is that name's value. */
  lemma FirstSetOfOne(env: Env, a: string)
    ensures FirstSet(env, [a]) == GetEnv(env, a)
  {
    assert [a][1..] == [];
  }

  /** FirstSet over two names is `a or b`. */
  lemma FirstSetOfTwo(env: Env, a: string, b: string)
    ensures FirstSet(env, [a, b]) == OrElse(GetEnv(env, a), GetEnv(env, b))
  {
    assert [a, b] == [a] + [b];
    FirstSetCons(env, a, [b]);
    FirstSetOfOne(env, b);
  }

  /** FirstSet over three names is `a or b or c`. */
  lemma FirstSetOfThree(env: Env, a: string, b: string, c: string)
    ensures FirstSet(env, [a, b, c]) == OrElse(OrElse(GetEnv(env, a), GetEnv(env, b)), GetEnv(env, c))
  {
    assert [a, b, c] == [a] + [b, c];
    FirstSetCons(env, a, [b, c]);
    FirstSetOfTwo(env, b, c);
  }
}
