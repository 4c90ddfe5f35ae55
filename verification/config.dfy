/** Configuration (config.py): the recursive `merge` of an override into the
    defaults, the conversion `toDict` into attribute dictionaries, and the
    attribute dictionary `Dict` itself. The modules holding the default and
    override settings are not part of this model. */
module Config {
  import opened Wrappers
  import opened PyValue
  import opened Text

  /** The `TypeError` Python raises for `k in o` on a value that is not a
      container, or for `o[k]` on a container that is not a dictionary. */
  datatype TypeError = TypeError

  /** `k in override`. */
  function Member(override: Value, k: string): (r: Result<bool, TypeError>)
    ensures override.Dict? ==> r == Ok(k in override.entries)
    ensures r.Err? <==> !(override.Dict? || override.Str? || override.List? || override.Tuple?)
  {
    match override
    case Dict(entries) => Ok(k in entries)
    case Str(s) => Ok(Contains(s, k))
    case List(items) => Ok(Str(k) in items)
    case Tuple(items) => Ok(Str(k) in items)
    case _ => Err(TypeError)
  }

  /** `override[k]` with a string key: only a dictionary holding `k` answers. */
  function Lookup(override: Value, k: string): Result<Value, TypeError>
  {
    if override.Dict? && k in override.entries then Ok(override.entries[k]) else Err(TypeError)
  }

  /** The entry `r[k]` that `merge(defaults, override)` writes for a key `k`
      of `defaults`. */
  function MergeEntry(defaults: Value, k: string, override: Value): Result<Value, TypeError>
    requires defaults.Dict? && k in defaults.entries
    decreases defaults, 0
  {
    var v := defaults.entries[k];
    var present :- Member(override, k);
    if !present then Ok(v)
    else
      var o :- Lookup(override, k);
      if v.Dict? then
        var merged :- Merge(v, o);
        Ok(Dict(merged))
      else Ok(o)
  }

  /** `merge(defaults, override)`: fails when any entry fails. */
  function Merge(defaults: Value, override: Value): Result<map<string, Value>, TypeError>
    requires defaults.Dict?
    decreases defaults, 1
  {
    if exists k | k in defaults.entries :: MergeEntry(defaults, k, override).Err? then Err(TypeError)
    else Ok(map k | k in defaults.entries :: MergeEntry(defaults, k, override).value)
  }

  /** The merge keeps exactly the keys of the defaults; a key only in the
      override is dropped. A key the override lacks keeps its default; a key
      it has takes the override's value when the default is not a dictionary,
      and the recursive merge when it is. */
  lemma MergeSpec(defaults: Value, override: Value)
    requires defaults.Dict? && override.Dict?
    requires Merge(defaults, override).Ok?
    ensures var r := Merge(defaults, override).value;
      && r.Keys == defaults.entries.Keys
      && (forall k :: k in defaults.entries && k !in override.entries ==> r[k] == defaults.entries[k])
      && (forall k :: k in defaults.entries && k in override.entries && !defaults.entries[k].Dict? ==>
            r[k] == override.entries[k])
      && (forall k :: k in defaults.entries && k in override.entries && defaults.entries[k].Dict? ==>
            Merge(defaults.entries[k], override.entries[k]).Ok?
            && r[k] == Dict(Merge(defaults.entries[k], override.entries[k]).value))
  {
  }

  /** A nested override fits the defaults when it is a dictionary and so is
      everything it supplies for a nested dictionary of the defaults. */
  predicate Fits(defaults: Value, override: Value)
    requires defaults.Dict?
    decreases defaults
  {
    && override.Dict?
    && forall k | k in defaults.entries && k in override.entries && defaults.entries[k].Dict? ::
         Fits(defaults.entries[k], override.entries[k])
  }

  /** A fitting override always merges without a `TypeError`. */
  lemma {:induction false} MergeFits(defaults: Value, override: Value)
    requires defaults.Dict? && Fits(defaults, override)
    ensures Merge(defaults, override).Ok?
    decreases defaults
  {
    forall k | k in defaults.entries
      ensures MergeEntry(defaults, k, override).Ok?
    {
      var v := defaults.entries[k];
      if k in override.entries && v.Dict? {
        MergeFits(v, override.entries[k]);
      }
    }
  }

  /** A scalar, `None` or number as the override fails at the first key. */
  lemma MergeNotContainer(defaults: Value, override: Value)
    requires defaults.Dict? && |defaults.entries| > 0
    requires !(override.Dict? || override.Str? || override.List? || override.Tuple?)
    ensures Merge(defaults, override) == Err(TypeError)
  {
    var k :| k in defaults.entries;
    assert MergeEntry(defaults, k, override).Err?;
  }

  /** Merging an empty override changes nothing. */
  lemma MergeEmpty(defaults: Value)
    requires defaults.Dict?
    ensures Merge(defaults, Dict(map[])) == Ok(defaults.entries)
  {
    var r := map k | k in defaults.entries :: MergeEntry(defaults, k, Dict(map[])).value;
    assert r == defaults.entries;
  }

  /** Merging a configuration with itself changes nothing. */
  lemma {:induction false} MergeSelf(defaults: Value)
    requires defaults.Dict?
    ensures Merge(defaults, defaults) == Ok(defaults.entries)
    decreases defaults
  {
    forall k | k in defaults.entries
      ensures MergeEntry(defaults, k, defaults) == Ok(defaults.entries[k])
    {
      var v := defaults.entries[k];
      if v.Dict? {
        MergeSelf(v);
        assert Dict(v.entries) == v;
      }
    }
    var r := map k | k in defaults.entries :: MergeEntry(defaults, k, defaults).value;
    assert r == defaults.entries;
  }

  // ---------------------------------------------------------------------------
  // Attribute dictionaries

  /** A value in a `Dict`: a plain value, or a nested `Dict`. */
  datatype Entry = Leaf(value: Value) | Nested(attrs: map<string, Entry>)

  type AttrDict = map<string, Entry>

  /** `toDict(d)`: nested dictionaries become nested `Dict`s. */
  function ToDict(d: Value): (r: AttrDict)
    requires d.Dict?
    ensures r.Keys == d.entries.Keys
    decreases d
  {
    map k | k in d.entries :: if d.entries[k].Dict? then Nested(ToDict(d.entries[k])) else Leaf(d.entries[k])
  }

  /** Reading a `Dict` back as a plain dictionary. */
  function Plain(e: Entry): Value
  {
    match e
    case Leaf(v) => v
    case Nested(attrs) => Dict(map k | k in attrs :: Plain(attrs[k]))
  }

  /** No leaf of a `Dict` built by `toDict` holds a dictionary. */
  predicate Converted(e: Entry)
  {
    match e
    case Leaf(v) => !v.Dict?
    case Nested(attrs) => forall k | k in attrs :: Converted(attrs[k])
  }

  /** `toDict` keeps every key and leaf: reading the result back gives the
      original dictionary, and the result has no dictionary left as a leaf. */
  lemma {:induction false} ToDictRoundTrip(d: Value)
    requires d.Dict?
    ensures Plain(Nested(ToDict(d))) == d
    ensures Converted(Nested(ToDict(d)))
    decreases d
  {
    var attrs := ToDict(d);
    forall k | k in attrs
      ensures Plain(attrs[k]) == d.entries[k]
      ensures Converted(attrs[k])
    {
      if d.entries[k].Dict? {
        ToDictRoundTrip(d.entries[k]);
      }
    }
    var back := map k | k in attrs :: Plain(attrs[k]);
    assert back == d.entries;
  }

  /** Converting a converted `Dict` read back as a dictionary restores it. */
  lemma {:induction false} PlainRoundTrip(e: Entry)
    requires e.Nested? && Converted(e)
    ensures Plain(e).Dict? && ToDict(Plain(e)) == e.attrs
    decreases e
  {
    var d := Plain(e);
    forall k | k in e.attrs
      ensures (if d.entries[k].Dict? then Nested(ToDict(d.entries[k])) else Leaf(d.entries[k])) == e.attrs[k]
    {
      var sub := e.attrs[k];
      if sub.Nested? {
        PlainRoundTrip(sub);
      }
    }
  }

  /** `zip(names, values)`: pairs up to the shorter length. */
  function Zip(names: seq<string>, values: seq<Value>): (pairs: seq<(string, Value)>)
    ensures |pairs| == if |names| < |values| then |names| else |values|
    ensures forall i :: 0 <= i < |pairs| ==> pairs[i] == (names[i], values[i])
  {
    var m := if |names| < |values| then |names| else |values|;
    seq(m, i requires 0 <= i < m => (names[i], values[i]))
  }

  /** `self[k] = v` for each pair in order. */
  function Assign(d: AttrDict, pairs: seq<(string, Value)>): AttrDict
  {
    if |pairs| == 0 then d
    else
      var last := pairs[|pairs| - 1];
      Assign(d, pairs[..|pairs| - 1])[last.0 := Leaf(last.1)]
  }

  /** `Dict(names, values, **kw)`: the keyword entries, then the zipped pairs. */
  function NewDict(names: seq<string>, values: seq<Value>, kw: map<string, Value>): AttrDict
  {
    Assign(map k | k in kw :: Leaf(kw[k]), Zip(names, values))
  }

  /** Assignment adds exactly the assigned names; an assigned name holds the
      value of its last pair; every other key keeps its entry. */
  lemma AssignSpec(d: AttrDict, pairs: seq<(string, Value)>)
    ensures forall k :: k in Assign(d, pairs) <==> k in d || exists i :: 0 <= i < |pairs| && pairs[i].0 == k
    ensures forall i :: 0 <= i < |pairs| && (forall j :: i < j < |pairs| ==> pairs[j].0 != pairs[i].0) ==>
              Assign(d, pairs)[pairs[i].0] == Leaf(pairs[i].1)
    ensures forall k :: k in d && (forall i :: 0 <= i < |pairs| ==> pairs[i].0 != k) ==> Assign(d, pairs)[k] == d[k]
  {
    AssignKeys(d, pairs);
    forall i | 0 <= i < |pairs| && (forall j :: i < j < |pairs| ==> pairs[j].0 != pairs[i].0)
      ensures Assign(d, pairs)[pairs[i].0] == Leaf(pairs[i].1)
    {
      AssignLast(d, pairs, i);
    }
    AssignKept(d, pairs);
  }

  lemma {:induction false} AssignKeys(d: AttrDict, pairs: seq<(string, Value)>)
    ensures forall k :: k in Assign(d, pairs) <==> k in d || exists i :: 0 <= i < |pairs| && pairs[i].0 == k
  {
    if |pairs| > 0 {
      var n := |pairs| - 1;
      AssignKeys(d, pairs[..n]);
      assert forall i :: 0 <= i < n ==> pairs[..n][i] == pairs[i];
    }
  }

  lemma {:induction false} AssignLast(d: AttrDict, pairs: seq<(string, Value)>, i: nat)
    requires i < |pairs|
    requires forall j :: i < j < |pairs| ==> pairs[j].0 != pairs[i].0
    ensures pairs[i].0 in Assign(d, pairs) && Assign(d, pairs)[pairs[i].0] == Leaf(pairs[i].1)
  {
    var n := |pairs| - 1;
    if i < n {
      AssignLast(d, pairs[..n], i);
    }
  }

  lemma {:induction false} AssignKept(d: AttrDict, pairs: seq<(string, Value)>)
    ensures forall k :: k in d && (forall i :: 0 <= i < |pairs| ==> pairs[i].0 != k) ==>
              k in Assign(d, pairs) && Assign(d, pairs)[k] == d[k]
  {
    if |pairs| > 0 {
      var n := |pairs| - 1;
      AssignKept(d, pairs[..n]);
      assert forall i :: 0 <= i < n ==> pairs[..n][i] == pairs[i];
    }
  }

  /** The keys of `Dict(names, values, **kw)` are the keyword names and the
      first `min(|names|, |values|)` names; a name not repeated later in that
      prefix holds its paired value; any other key its keyword value. */
  lemma NewDictSpec(names: seq<string>, values: seq<Value>, kw: map<string, Value>)
    ensures var d := NewDict(names, values, kw);
      var m := if |names| < |values| then |names| else |values|;
      && (forall k :: k in d <==> k in kw || k in names[..m])
      && (forall i :: 0 <= i < m && (forall j :: i < j < m ==> names[j] != names[i]) ==> d[names[i]] == Leaf(values[i]))
      && (forall k :: k in kw && k !in names[..m] ==> d[k] == Leaf(kw[k]))
  {
    var pairs := Zip(names, values);
    var m := |pairs|;
    AssignSpec(map k | k in kw :: Leaf(kw[k]), pairs);
    forall k
      ensures k in names[..m] <==> exists i :: 0 <= i < m && pairs[i].0 == k
    {
      if k in names[..m] {
        var i :| 0 <= i < m && names[..m][i] == k;
        assert pairs[i].0 == k;
      }
    }
  }

  /** The `AttributeError` of reading a missing attribute, with its message. */
  datatype AttributeError = AttributeError(message: string)

  /** `d.key`. */
  function GetAttr(d: AttrDict, key: string): (r: Result<Entry, AttributeError>)
    ensures r.Ok? <==> key in d
    ensures r.Ok? ==> r.value == d[key]
    ensures r.Err? ==> r.error.message == "'Dict' object has no attribute '" + key + "'"
  {
    if key in d then Ok(d[key]) else Err(AttributeError("'Dict' object has no attribute '" + key + "'"))
  }

  /** `d.key = value`. */
  function SetAttr(d: AttrDict, key: string, value: Entry): AttrDict
  {
    d[key := value]
  }

  /** An attribute reads back what was last set, and setting one attribute
      changes no other. */
  lemma GetAfterSet(d: AttrDict, key: string, value: Entry, other: string)
    ensures GetAttr(SetAttr(d, key, value), key) == Ok(value)
    ensures other != key ==> GetAttr(SetAttr(d, key, value), other) == GetAttr(d, other)
    ensures SetAttr(d, key, value).Keys == d.Keys + {key}
  {
  }
}
