/** The environment variable store of `SystemVariable.cs`, a process-wide string dictionary. */
module Variables {
  import opened Wrappers

  /** One entry of the configuration asset's variable list. */
  datatype SerializedVariableObject = SerializedVariableObject(key: string, value: string)

  /** The dictionary after applying `SetValue` to each pair of `pairs`, in list order. */
  function Loaded(m: map<string, string>, pairs: seq<SerializedVariableObject>): map<string, string>
  {
    if pairs == [] then m
    else
      var last := pairs[|pairs| - 1];
      Loaded(m, pairs[..|pairs| - 1])[last.key := last.value]
  }

  /** The keys warned about while applying `pairs`, in order: those already present when set. */
  function Collisions(m: map<string, string>, pairs: seq<SerializedVariableObject>): seq<string>
  {
    if pairs == [] then []
    else
      var init := pairs[..|pairs| - 1];
      var last := pairs[|pairs| - 1];
      Collisions(m, init) + (if last.key in Loaded(m, init) then [last.key] else [])
  }

  /** The value of the last pair in `pairs` with key `key`, if any. */
  function LastValue(pairs: seq<SerializedVariableObject>, key: string): Option<string>
  {
    if pairs == [] then None
    else if pairs[|pairs| - 1].key == key then Some(pairs[|pairs| - 1].value)
    else LastValue(pairs[..|pairs| - 1], key)
  }

  /** Loading in order: the last occurrence of a key wins, and keys not mentioned keep their value. */
  lemma {:induction false} LoadedLastWins(m: map<string, string>, pairs: seq<SerializedVariableObject>, key: string)
    ensures key in Loaded(m, pairs) <==> key in m || LastValue(pairs, key).Some?
    ensures LastValue(pairs, key).Some? ==> Loaded(m, pairs)[key] == LastValue(pairs, key).value
    ensures LastValue(pairs, key).None? && key in m ==> Loaded(m, pairs)[key] == m[key]
  {
    if pairs != [] {
      LoadedLastWins(m, pairs[..|pairs| - 1], key);
    }
  }

  /** Every pair either adds one new key or raises one warning. */
  lemma {:induction false} LoadedKeyCount(m: map<string, string>, pairs: seq<SerializedVariableObject>)
    ensures |Collisions(m, pairs)| <= |pairs|
    ensures |Loaded(m, pairs).Keys| == |m.Keys| + |pairs| - |Collisions(m, pairs)|
  {
    if pairs != [] {
      var init := pairs[..|pairs| - 1];
      var last := pairs[|pairs| - 1];
      LoadedKeyCount(m, init);
      var before := Loaded(m, init);
      assert Loaded(m, pairs).Keys == before.Keys + {last.key};
      if last.key !in before {
        assert |before.Keys + {last.key}| == |before.Keys| + 1;
      }
    }
  }

  class EnvironmentVariables {
    var variables: map<string, string>
    /** Every call of `Logger.Warn` in `SetValue`, recorded as the key it names. */
    ghost var warnings: seq<string>

    constructor ()
      ensures variables == map[] && warnings == []
    {
      variables := map[];
      warnings := [];
    }

    /** `OnCleanup`: the store is left empty. */
    method OnCleanup()
      modifies this
      ensures variables == map[]
      ensures warnings == old(warnings)
    {
      variables := map[];
    }

    /** Overwrites an existing key with one warning; a new key is added silently. */
    method SetValue(key: string, value: string)
      modifies this
      ensures variables == old(variables)[key := value]
      ensures GetValue(key) == Some(value)
      ensures forall k :: k != key ==> GetValue(k) == old(GetValue(k))
      ensures warnings == old(warnings) + (if key in old(variables) then [key] else [])
    {
      if key in variables {
        warnings := warnings + [key];
        variables := variables - {key};
      }
      variables := variables[key := value];
    }

    /**
     * The dictionary overload: every pair is set. The dictionary's enumeration order is not
     * specified, so the new warnings are one per key the store already held, in some order.
     */
    method SetValues(vars: map<string, string>)
      modifies this
      ensures variables == old(variables) + vars
      ensures |warnings| >= |old(warnings)| && warnings[..|old(warnings)|] == old(warnings)
      ensures forall k :: k in warnings[|old(warnings)|..] <==> k in vars && k in old(variables)
      ensures forall i, j :: |old(warnings)| <= i < j < |warnings| ==> warnings[i] != warnings[j]
    {
      var remaining := vars.Keys;
      ghost var done: set<string> := {};
      ghost var raised: seq<string> := [];
      while remaining != {}
        invariant remaining + done == vars.Keys && remaining !! done
        invariant variables.Keys == old(variables).Keys + done
        invariant forall k :: k in variables ==> variables[k] == if k in done then vars[k] else old(variables)[k]
        invariant warnings == old(warnings) + raised
        invariant forall k :: k in raised <==> k in done && k in old(variables)
        invariant forall i, j :: 0 <= i < j < |raised| ==> raised[i] != raised[j]
        decreases remaining
      {
        var key :| key in remaining;
        assert key in variables <==> key in old(variables);
        SetValue(key, vars[key]);
        if key in old(variables) {
          raised := raised + [key];
        }
        done := done + {key};
        remaining := remaining - {key};
      }
      assert variables == old(variables) + vars;
      assert warnings[..|old(warnings)|] == old(warnings);
      assert warnings[|old(warnings)|..] == raised;
    }

    /** `AutoloadConfigurationVariableObjects`: the pairs are set in list order; `None` (null) does nothing. */
    method AutoloadConfigurationVariableObjects(variableObjects: Option<seq<SerializedVariableObject>>)
      modifies this
      ensures variableObjects.None? ==> variables == old(variables) && warnings == old(warnings)
      ensures variableObjects.Some? ==> variables == Loaded(old(variables), variableObjects.value)
      ensures variableObjects.Some? ==>
                warnings == old(warnings) + Collisions(old(variables), variableObjects.value)
    {
      if variableObjects.None? {
        return;
      }
      var objects := variableObjects.value;
      var n := 0;
      while n < |objects|
        invariant 0 <= n <= |objects|
        invariant variables == Loaded(old(variables), objects[..n])
        invariant warnings == old(warnings) + Collisions(old(variables), objects[..n])
      {
        var variableObject := objects[n];
        assert objects[..n + 1][..n] == objects[..n];
        SetValue(variableObject.key, variableObject.value);
        n := n + 1;
      }
      assert objects[..n] == objects;
    }

    /** The stored value, or `None` (C# `null`) when the key is absent. */
    function GetValue(key: string): (r: Option<string>)
      reads this
      ensures r.Some? <==> key in variables
      ensures r.Some? ==> r.value == variables[key]
    {
      if key in variables then Some(variables[key]) else None
    }
  }
}
