/** The minimal ORM of orm.py: column declarations, the entity descriptor the
    metaclass derives from them (primary key, non-key fields in declaration
    order, four precomputed SQL templates), the argument lists `save`,
    `update` and `remove` send, and the SQL the class-level finders assemble.
    The database is an oracle from driver-syntax SQL and arguments to rows or
    to an affected-row count. */
module Orm {
  import opened Wrappers
  import opened PyValue
  import opened Text

  // ---------------------------------------------------------------------------
  // Column declarations

  /** A column default: a constant (`Const(PyNone)` is "no default") or a
      zero-argument factory such as `time.time` or `next_id`. */
  datatype Default = Const(v: Value) | Factory(name: string)

  /** orm.py `Field`: optional column-name override, DDL type, key flag, default. */
  datatype Field = Field(name: Option<string>, columnType: string, primaryKey: bool, default: Default)

  function StringField(primaryKey: bool := false, default: Default := Const(PyNone), ddl: string := "varchar(100)"): Field
  {
    Field(None, ddl, primaryKey, default)
  }

  function BooleanField(default: Default := Const(Bool(false))): Field
  {
    Field(None, "boolean", false, default)
  }

  function IntegerField(primaryKey: bool := false, default: Default := Const(Int(0))): Field
  {
    Field(None, "bigint", primaryKey, default)
  }

  function FloatField(primaryKey: bool := false, default: Default := Const(Float("0.0"))): Field
  {
    Field(None, "real", primaryKey, default)
  }

  function TextField(default: Default := Const(PyNone)): Field
  {
    Field(None, "text", false, default)
  }

  /** One `Field`-valued class attribute: its attribute name and the field. */
  type Decl = (string, Field)

  function Keys(decls: seq<Decl>): (ks: seq<string>)
    ensures |ks| == |decls|
    ensures forall i :: 0 <= i < |decls| ==> ks[i] == decls[i].0
  {
    seq(|decls|, i requires 0 <= i < |decls| => decls[i].0)
  }

  /** No two elements are equal. */
  predicate Distinct<T(==)>(s: seq<T>)
  {
    forall i, j :: 0 <= i < j < |s| ==> s[i] != s[j]
  }

  /** Attribute names of the declarations flagged as primary key, in order. */
  function PrimaryKeyNames(decls: seq<Decl>): (ks: seq<string>)
    ensures forall k :: k in ks ==> k in Keys(decls)
  {
    if |decls| == 0 then []
    else
      var rest := PrimaryKeyNames(decls[1..]);
      if decls[0].1.primaryKey then [decls[0].0] + rest else rest
  }

  /** The declarations not flagged as primary key, in declaration order. */
  function NonKeyDecls(decls: seq<Decl>): (ds: seq<Decl>)
    ensures forall d :: d in ds ==> d in decls && !d.1.primaryKey
  {
    if |decls| == 0 then []
    else
      var rest := NonKeyDecls(decls[1..]);
      if decls[0].1.primaryKey then rest else [decls[0]] + rest
  }

  /** `mappings`: attribute name to field. A Python class body cannot declare a
      name twice, so each name has one declaration; should a sequence repeat a
      name, the later declaration wins. */
  function Mappings(decls: seq<Decl>): (m: map<string, Field>)
    ensures m.Keys == set d | d in decls :: d.0
  {
    if |decls| == 0 then map[]
    else
      var last := decls[|decls| - 1];
      assert decls == decls[..|decls| - 1] + [last];
      Mappings(decls[..|decls| - 1])[last.0 := last.1]
  }

  /** A name declared at `i` and never again maps to the field declared there. */
  lemma {:induction false} MappingsLookup(decls: seq<Decl>, i: nat)
    requires i < |decls|
    requires forall j :: i < j < |decls| ==> decls[j].0 != decls[i].0
    ensures decls[i].0 in Mappings(decls) && Mappings(decls)[decls[i].0] == decls[i].1
  {
    if i < |decls| - 1 {
      MappingsLookup(decls[..|decls| - 1], i);
    }
  }

  // ---------------------------------------------------------------------------
  // Entity descriptor

  datatype SchemaError = DuplicatePrimaryKey(key: string) | PrimaryKeyNotFound

  datatype Descriptor = Descriptor(
    table: string,
    mappings: map<string, Field>,
    primaryKey: string,
    fields: seq<string>,
    select: string,
    insert: string,
    update: string,
    delete: string)

  /** `attrs.get('__table__', None) or name`: an absent or empty `__table__`
      falls back to the class name. */
  function TableName(className: string, tableAttr: Option<string>): string
  {
    if tableAttr.Some? && tableAttr.value != "" then tableAttr.value else className
  }

  /** The metaclass loop over the attributes: the primary key found so far
      (`""` while none, as `if primaryKey:` treats `None` and `""` alike) and
      the non-key declarations so far. A second primary key stops the loop. */
  function ScanFields(decls: seq<Decl>, pk: string, nonKey: seq<Decl>): Result<(string, seq<Decl>), SchemaError>
  {
    if |decls| == 0 then Ok((pk, nonKey))
    else if decls[0].1.primaryKey then
      if pk != "" then Err(DuplicatePrimaryKey(decls[0].0))
      else ScanFields(decls[1..], decls[0].0, nonKey)
    else ScanFields(decls[1..], pk, nonKey + [decls[0]])
  }

  /** Python's `'`%s`' % f`. */
  function Escape(f: string): string
  {
    "`" + f + "`"
  }

  function EscapeAll(fs: seq<string>): (es: seq<string>)
    ensures |es| == |fs|
    ensures forall i :: 0 <= i < |fs| ==> es[i] == Escape(fs[i])
  {
    seq(|fs|, i requires 0 <= i < |fs| => Escape(fs[i]))
  }

  /** `mappings.get(f).name or f`: the column name override unless absent or empty. */
  function ColumnName(d: Decl): string
  {
    if d.1.name.Some? && d.1.name.value != "" then d.1.name.value else d.0
  }

  /** One SET item of the update template as evidently intended, with the
      column quoted as in the select and insert templates. The source writes
      it without the opening backtick (`SetItemAsWritten`), and the descriptor
      carries that text; see `UpdateQuoting`. */
  function SetItem(d: Decl): string
  {
    Escape(ColumnName(d)) + "=?"
  }

  /** The SET item exactly as the source formats it: `'%s`=?'`. */
  function SetItemAsWritten(d: Decl): string
  {
    ColumnName(d) + "`=?"
  }

  function SetItemsAsWritten(ds: seq<Decl>): (items: seq<string>)
    ensures |items| == |ds|
    ensures forall i :: 0 <= i < |ds| ==> items[i] == SetItemAsWritten(ds[i])
  {
    seq(|ds|, i requires 0 <= i < |ds| => SetItemAsWritten(ds[i]))
  }

  function SetItems(ds: seq<Decl>): (items: seq<string>)
    ensures |items| == |ds|
    ensures forall i :: 0 <= i < |ds| ==> items[i] == SetItem(ds[i])
  {
    seq(|ds|, i requires 0 <= i < |ds| => SetItem(ds[i]))
  }

  /** `create_args_string(num)`: `num` question marks joined by `", "`. */
  function CreateArgsString(num: nat): (s: string)
    ensures Count('?', s) == num
    ensures |s| == if num == 0 then 0 else 3 * num - 2
    ensures forall i :: 0 <= i < |s| ==> s[i] == "?, "[i % 3]
  {
    var parts := Repeat("?", num);
    CountJoinUniform('?', parts, ", ", 1);
    PlaceholderListShape(num);
    Join(parts, ", ")
  }

  lemma {:induction false} PlaceholderListShape(num: nat)
    ensures var s := Join(Repeat("?", num), ", ");
      && |s| == (if num == 0 then 0 else 3 * num - 2)
      && forall i :: 0 <= i < |s| ==> s[i] == "?, "[i % 3]
  {
    if num > 1 {
      PlaceholderListShape(num - 1);
      var parts := Repeat("?", num);
      assert parts[1..] == Repeat("?", num - 1);
      var tail := Join(Repeat("?", num - 1), ", ");
      var s := Join(parts, ", ");
      assert s == "?, " + tail;
      forall i | 0 <= i < |s|
        ensures s[i] == "?, "[i % 3]
      {
        if i >= 3 {
          assert s[i] == tail[i - 3];
          assert (i - 3) % 3 == i % 3;
        }
      }
    }
  }

  function SelectTemplate(table: string, pk: string, fields: seq<string>): string
  {
    "select `" + pk + "`, " + Join(EscapeAll(fields), ", ") + " from `" + table + "`"
  }

  function InsertTemplate(table: string, pk: string, fields: seq<string>): string
  {
    "insert into `" + table + "` (" + Join(EscapeAll(fields), ", ") + ", `" + pk + "`) values ("
      + CreateArgsString(|fields| + 1) + ")"
  }

  /** `update `t` set <list> where `pk` = ?`. */
  function UpdateFrame(table: string, pk: string, list: string): string
  {
    "update `" + table + "` set " + list + " where `" + pk + "` = ?"
  }

  /** The update template as evidently intended, from `SetItem`. */
  function UpdateTemplate(table: string, pk: string, nonKey: seq<Decl>): string
  {
    UpdateFrame(table, pk, Join(SetItems(nonKey), ", "))
  }

  /** The update template as the source builds it, from `SetItemAsWritten`;
      this is the text a descriptor carries. */
  function UpdateTemplateAsWritten(table: string, pk: string, nonKey: seq<Decl>): string
  {
    UpdateFrame(table, pk, Join(SetItemsAsWritten(nonKey), ", "))
  }

  function DeleteTemplate(table: string, pk: string): string
  {
    "delete from `" + table + "` where `" + pk + "`=?"
  }

  /** The descriptor for a table, its attributes, primary key and non-key declarations. */
  function Assemble(table: string, mappings: map<string, Field>, pk: string, nonKey: seq<Decl>): Descriptor
  {
    var fields := Keys(nonKey);
    Descriptor(table, mappings, pk, fields,
      SelectTemplate(table, pk, fields),
      InsertTemplate(table, pk, fields),
      UpdateTemplateAsWritten(table, pk, nonKey),
      DeleteTemplate(table, pk))
  }

  /** `ModelMetaclass.__new__`: `Ok(None)` for the `Model` base class itself,
      a descriptor when exactly one declaration is a primary key, and the
      `RuntimeError` of a missing or duplicate primary key otherwise. */
  function Build(className: string, tableAttr: Option<string>, decls: seq<Decl>): Result<Option<Descriptor>, SchemaError>
  {
    if className == "Model" then Ok(None)
    else
      var scanned :- ScanFields(decls, "", []);
      if scanned.0 == "" then Err(PrimaryKeyNotFound)
      else Ok(Some(Assemble(TableName(className, tableAttr), Mappings(decls), scanned.0, scanned.1)))
  }

  /** The scan finds the first primary key and fails exactly at the second one. */
  lemma {:induction false} ScanFieldsSpec(decls: seq<Decl>, pk: string, nonKey: seq<Decl>)
    requires forall i :: 0 <= i < |decls| ==> decls[i].0 != ""
    ensures var pks := PrimaryKeyNames(decls);
      ScanFields(decls, pk, nonKey)
        == if pk == "" then
             (if |pks| <= 1 then Ok((if |pks| == 0 then "" else pks[0], nonKey + NonKeyDecls(decls)))
              else Err(DuplicatePrimaryKey(pks[1])))
           else
             (if |pks| == 0 then Ok((pk, nonKey + NonKeyDecls(decls)))
              else Err(DuplicatePrimaryKey(pks[0])))
  {
    if |decls| > 0 {
      var pks := PrimaryKeyNames(decls);
      var pks' := PrimaryKeyNames(decls[1..]);
      if decls[0].1.primaryKey {
        assert pks == [decls[0].0] + pks';
        assert NonKeyDecls(decls) == NonKeyDecls(decls[1..]);
        if pk == "" {
          ScanFieldsSpec(decls[1..], decls[0].0, nonKey);
          assert decls[0].0 != "";
        }
      } else {
        assert pks == pks';
        ScanFieldsSpec(decls[1..], pk, nonKey + [decls[0]]);
        assert nonKey + [decls[0]] + NonKeyDecls(decls[1..]) == nonKey + NonKeyDecls(decls);
      }
    } else {
      assert nonKey + NonKeyDecls(decls) == nonKey;
    }
  }

  /** Building a descriptor fails when no declaration is a primary key or when
      a second one appears; otherwise the key is the declared one and
      `__fields__` lists the other attribute names in declaration order. */
  lemma BuildSpec(className: string, tableAttr: Option<string>, decls: seq<Decl>)
    requires className != "Model"
    requires forall i :: 0 <= i < |decls| ==> decls[i].0 != ""
    ensures var r := Build(className, tableAttr, decls);
      var pks := PrimaryKeyNames(decls);
      && (|pks| == 0 <==> r == Err(PrimaryKeyNotFound))
      && (|pks| >= 2 ==> r == Err(DuplicatePrimaryKey(pks[1])))
      && (|pks| == 1 <==> r.Ok?)
      && (r.Ok? ==>
            && r.value.Some?
            && r.value.value.primaryKey == pks[0]
            && r.value.value.fields == Keys(NonKeyDecls(decls))
            && r.value.value.table == TableName(className, tableAttr)
            && r.value.value.mappings == Mappings(decls)
            && r.value.value == Assemble(TableName(className, tableAttr), Mappings(decls), pks[0], NonKeyDecls(decls)))
  {
    ScanFieldsSpec(decls, "", []);
    assert [] + NonKeyDecls(decls) == NonKeyDecls(decls);
    var pks := PrimaryKeyNames(decls);
    if |pks| >= 2 {
      assert DuplicatePrimaryKey(pks[1]) != PrimaryKeyNotFound;
    }
  }

  // ---------------------------------------------------------------------------
  // Template placeholders

  /** No `?` in the table name, the attribute names or the column overrides. */
  predicate PlainNames(table: string, decls: seq<Decl>)
  {
    && '?' !in table
    && forall i :: 0 <= i < |decls| ==> '?' !in decls[i].0 && '?' !in ColumnName(decls[i])
  }

  lemma NoPlaceholder(s: string)
    requires '?' !in s
    ensures Count('?', s) == 0
  {
    CountAbsent('?', s);
  }

  /** Placeholders of a text with placeholder-free context around it. */
  lemma CountBetween(a: string, m: string, b: string)
    requires '?' !in a && '?' !in b
    ensures Count('?', a + m + b) == Count('?', m)
  {
    CountAppend('?', a, m);
    CountAppend('?', a + m, b);
    CountAbsent('?', a);
    CountAbsent('?', b);
  }

  /** A trailing placeholder adds one. */
  lemma CountMark(a: string)
    ensures Count('?', a + "?") == Count('?', a) + 1
  {
    CountAppend('?', a, "?");
    assert "?"[1..] == "";
  }

  /** Each escaped plain field name is free of placeholders, and so is their join. */
  lemma EscapedColumnsPlain(fields: seq<string>)
    requires forall i :: 0 <= i < |fields| ==> '?' !in fields[i]
    ensures '?' !in Join(EscapeAll(fields), ", ")
  {
    var escaped := EscapeAll(fields);
    forall i | 0 <= i < |escaped|
      ensures Count('?', escaped[i]) == 0
    {
      CountAbsent('?', escaped[i]);
    }
    CountJoinUniform('?', escaped, ", ", 0);
    CountAbsent('?', Join(escaped, ", "));
  }

  /** Every SET item, corrected or as written, holds one placeholder, and so
      each list holds one per non-key field. */
  lemma SetItemsPlaceholders(nonKey: seq<Decl>)
    requires forall i :: 0 <= i < |nonKey| ==> '?' !in ColumnName(nonKey[i])
    ensures Count('?', Join(SetItems(nonKey), ", ")) == |nonKey|
    ensures Count('?', Join(SetItemsAsWritten(nonKey), ", ")) == |nonKey|
  {
    var items := SetItems(nonKey);
    var written := SetItemsAsWritten(nonKey);
    forall i | 0 <= i < |nonKey|
      ensures Count('?', items[i]) == 1 && Count('?', written[i]) == 1
    {
      var c := ColumnName(nonKey[i]);
      CountMark(Escape(c) + "=");
      CountAbsent('?', Escape(c) + "=");
      assert items[i] == Escape(c) + "=" + "?";
      CountMark(c + "`=");
      CountAbsent('?', c + "`=");
      assert written[i] == c + "`=" + "?";
    }
    CountJoinUniform('?', items, ", ", 1);
    CountJoinUniform('?', written, ", ", 1);
  }

  /** The delete template has the key's placeholder only. */
  lemma DeletePlaceholder(table: string, pk: string)
    requires '?' !in table && '?' !in pk
    ensures Count('?', DeleteTemplate(table, pk)) == 1
  {
    var del := "delete from `" + table + "` where `" + pk + "`=";
    CountMark(del);
    CountAbsent('?', del);
    assert DeleteTemplate(table, pk) == del + "?";
  }

  /** The update template, as written and corrected, has one placeholder per
      non-key field plus one for the key. */
  lemma UpdateTemplatesPlaceholders(table: string, pk: string, nonKey: seq<Decl>)
    requires PlainNames(table, nonKey) && '?' !in pk
    ensures Count('?', UpdateTemplateAsWritten(table, pk, nonKey)) == |nonKey| + 1
    ensures Count('?', UpdateTemplate(table, pk, nonKey)) == |nonKey| + 1
  {
    SetItemsPlaceholders(nonKey);
    UpdatePlaceholders(table, pk, Join(SetItems(nonKey), ", "));
    UpdatePlaceholders(table, pk, Join(SetItemsAsWritten(nonKey), ", "));
  }

  /** With plain names, the select template has no placeholder, insert and
      update (as written and as corrected) have one per non-key field plus
      one for the key, delete has one. */
  lemma TemplatePlaceholders(table: string, pk: string, nonKey: seq<Decl>)
    requires PlainNames(table, nonKey) && '?' !in pk
    ensures var fields := Keys(nonKey);
      && Count('?', SelectTemplate(table, pk, fields)) == 0
      && Count('?', InsertTemplate(table, pk, fields)) == |fields| + 1
      && Count('?', UpdateTemplateAsWritten(table, pk, nonKey)) == |fields| + 1
      && Count('?', UpdateTemplate(table, pk, nonKey)) == |fields| + 1
      && Count('?', DeleteTemplate(table, pk)) == 1
  {
    var fields := Keys(nonKey);
    EscapedColumnsPlain(fields);
    SelectPlaceholders(table, pk, fields);
    InsertPlaceholders(table, pk, fields);
    UpdateTemplatesPlaceholders(table, pk, nonKey);
    DeletePlaceholder(table, pk);
  }

  // ---------------------------------------------------------------------------
  // Identifier quoting in the update template

  /** With backtick-free names, every corrected SET item quotes its column with
      two backticks, while the item as written has a single one. */
  lemma SetItemQuoting(d: Decl)
    requires '`' !in ColumnName(d)
    ensures Count('`', SetItem(d)) == 2 && SetItem(d)[0] == '`'
    ensures Count('`', SetItemAsWritten(d)) == 1 && SetItemAsWritten(d) != SetItem(d)
  {
    var c := ColumnName(d);
    CountAbsent('`', c);
    CountAppend('`', "`", c);
    CountAppend('`', "`" + c, "`");
    CountAppend('`', "`" + c + "`", "=?");
    assert "`"[1..] == "";
    assert "=?"[1..] == "?";
    CountAppend('`', c, "`=?");
    assert "`=?"[1..] == "=?";
    assert |SetItemAsWritten(d)| < |SetItem(d)|;
  }

  /** The update frame adds four backticks around its SET list. */
  lemma UpdateFrameQuoting(table: string, pk: string, list: string)
    requires '`' !in table && '`' !in pk
    ensures Count('`', UpdateFrame(table, pk, list)) == Count('`', list) + 4
  {
    CountAbsent('`', table);
    CountAbsent('`', pk);
    UpdateLiterals();
    CountPieces('`', "update `", table, "` set ", list, " where `", pk, "` = ?");
  }

  lemma UpdateLiterals()
    ensures Count('`', "update `") == 1
    ensures Count('`', "` set ") == 1
    ensures Count('`', " where `") == 1
    ensures Count('`', "` = ?") == 1
  {
    SingleMark('`', "update ", "");
    assert "update " + "`" + "" == "update `";
    SingleMark('`', "", " set ");
    assert "" + "`" + " set " == "` set ";
    SingleMark('`', " where ", "");
    assert " where " + "`" + "" == " where `";
    SingleMark('`', "", " = ?");
    assert "" + "`" + " = ?" == "` = ?";
  }

  /** The corrected update template quotes every identifier, two backticks
      each. The template as written has one backtick per non-key field plus
      four, so for an odd number of non-key fields a quoted identifier is
      left open and the statement cannot be parsed. */
  lemma UpdateQuoting(table: string, pk: string, nonKey: seq<Decl>)
    requires '`' !in table && '`' !in pk
    requires forall i :: 0 <= i < |nonKey| ==> '`' !in ColumnName(nonKey[i])
    ensures Count('`', UpdateTemplate(table, pk, nonKey)) == 4 + 2 * |nonKey|
    ensures Count('`', UpdateTemplateAsWritten(table, pk, nonKey)) == 4 + |nonKey|
    ensures |nonKey| % 2 == 1 ==> Count('`', UpdateTemplateAsWritten(table, pk, nonKey)) % 2 == 1
  {
    var items := SetItems(nonKey);
    var written := SetItemsAsWritten(nonKey);
    forall i | 0 <= i < |nonKey|
      ensures Count('`', items[i]) == 2 && Count('`', written[i]) == 1
    {
      SetItemQuoting(nonKey[i]);
    }
    CountJoinUniform('`', items, ", ", 2);
    CountJoinUniform('`', written, ", ", 1);
    UpdateFrameQuoting(table, pk, Join(items, ", "));
    UpdateFrameQuoting(table, pk, Join(written, ", "));
  }

  lemma SelectPlaceholders(table: string, pk: string, fields: seq<string>)
    requires '?' !in table && '?' !in pk && '?' !in Join(EscapeAll(fields), ", ")
    ensures Count('?', SelectTemplate(table, pk, fields)) == 0
  {
    CountAbsent('?', SelectTemplate(table, pk, fields));
  }

  lemma InsertPlaceholders(table: string, pk: string, fields: seq<string>)
    requires '?' !in table && '?' !in pk && '?' !in Join(EscapeAll(fields), ", ")
    ensures Count('?', InsertTemplate(table, pk, fields)) == |fields| + 1
  {
    var ins := "insert into `" + table + "` (" + Join(EscapeAll(fields), ", ") + ", `" + pk + "`) values (";
    CountBetween(ins, CreateArgsString(|fields| + 1), ")");
  }

  /** The update frame adds one placeholder, for the key, to its SET list. */
  lemma UpdatePlaceholders(table: string, pk: string, list: string)
    requires '?' !in table && '?' !in pk
    ensures Count('?', UpdateFrame(table, pk, list)) == Count('?', list) + 1
  {
    var upd := "update `" + table + "` set ";
    var mid := " where `" + pk + "` = ";
    CountBetween(upd, list, mid);
    CountMark(upd + list + mid);
    assert UpdateFrame(table, pk, list) == upd + list + mid + "?";
  }

  // ---------------------------------------------------------------------------
  // Instances and default resolution

  /** An entity instance: the attribute dictionary. */
  type Instance = map<string, Value>

  /** `getValue(key)`: the attribute, or `None` when it is not set. Nothing is stored. */
  function GetValue(inst: Instance, key: string): Value
  {
    if key in inst then inst[key] else PyNone
  }

  /** `map(self.getValue, keys)`. */
  function Values(inst: Instance, keys: seq<string>): (vs: seq<Value>)
    ensures |vs| == |keys|
    ensures forall i :: 0 <= i < |keys| ==> vs[i] == GetValue(inst, keys[i])
  {
    seq(|keys|, i requires 0 <= i < |keys| => GetValue(inst, keys[i]))
  }

  datatype OrmError = KeyError(key: string) | InvalidLimit(limit: Value)

  /** What a field default yields: the constant, or what the factory returned. */
  function DefaultValue(d: Default, produced: Value): Value
  {
    match d
    case Const(c) => c
    case Factory(_) => produced
  }

  /** Reference for the value `getValueOrDefault` returns: the attribute when
      set to something other than `None`, else the field's default. */
  function ResolvedValue(mappings: map<string, Field>, inst: Instance, key: string, produce: string -> Value): Value
  {
    var v := GetValue(inst, key);
    if v != PyNone || key !in mappings then v else DefaultValue(mappings[key].default, produce(key))
  }

  /** `getValueOrDefault(key)`. `produce(key)` is what the field's default
      factory returns when called now. A `None` attribute of a name that is
      not a field raises `KeyError` from the `__mappings__` lookup. */
  function GetValueOrDefault(mappings: map<string, Field>, inst: Instance, key: string, produce: string -> Value)
    : (r: Result<(Value, Instance), OrmError>)
    ensures GetValue(inst, key) != PyNone ==> r == Ok((GetValue(inst, key), inst))
    ensures r.Err? <==> GetValue(inst, key) == PyNone && key !in mappings
    ensures r.Ok? ==> r.value.0 == ResolvedValue(mappings, inst, key, produce)
    ensures r.Ok? ==> GetValue(r.value.1, key) == r.value.0
    ensures r.Ok? ==> r.value.1 == inst || r.value.1 == inst[key := r.value.0]
  {
    var v := GetValue(inst, key);
    if v != PyNone then Ok((v, inst))
    else if key !in mappings then Err(KeyError(key))
    else
      match mappings[key].default
      case Const(c) => if c == PyNone then Ok((PyNone, inst)) else Ok((c, inst[key := c]))
      case Factory(_) => var c := produce(key); Ok((c, inst[key := c]))
  }

  /** A resolved default is stored: asking again, whatever the factory would
      return now, gives the same value and changes nothing. */
  lemma ResolvedOnce(mappings: map<string, Field>, inst: Instance, key: string, produce: string -> Value, later: string -> Value)
    requires GetValueOrDefault(mappings, inst, key, produce).Ok?
    ensures var (w, inst') := GetValueOrDefault(mappings, inst, key, produce).value;
      w != PyNone ==> GetValueOrDefault(mappings, inst', key, later) == Ok((w, inst'))
  {
  }

  /** `map(self.getValueOrDefault, keys)`, threading the stores left to right. */
  function ResolveAll(mappings: map<string, Field>, inst: Instance, keys: seq<string>, produce: string -> Value)
    : (r: Result<(seq<Value>, Instance), OrmError>)
    ensures r.Ok? ==> |r.value.0| == |keys|
    ensures (forall k :: k in keys ==> k in mappings) ==> r.Ok?
    decreases |keys|
  {
    if |keys| == 0 then Ok(([], inst))
    else
      var first :- GetValueOrDefault(mappings, inst, keys[0], produce);
      var rest :- ResolveAll(mappings, first.1, keys[1..], produce);
      Ok(([first.0] + rest.0, rest.1))
  }

  /** Resolving one name leaves every other name as it was. */
  lemma ResolveFrame(mappings: map<string, Field>, inst: Instance, key: string, produce: string -> Value)
    requires GetValueOrDefault(mappings, inst, key, produce).Ok?
    ensures var inst1 := GetValueOrDefault(mappings, inst, key, produce).value.1;
      forall k :: k != key ==>
        && GetValue(inst1, k) == GetValue(inst, k)
        && (k in inst1 <==> k in inst)
        && ResolvedValue(mappings, inst1, k, produce) == ResolvedValue(mappings, inst, k, produce)
  {
  }

  /** With distinct field names every argument is the value resolved on the
      original instance, the instance afterwards holds exactly those values
      for the names, and every other attribute is unchanged. */
  lemma {:induction false} ResolveAllSpec(mappings: map<string, Field>, inst: Instance, keys: seq<string>, produce: string -> Value)
    requires Distinct(keys)
    requires forall k :: k in keys ==> k in mappings
    ensures ResolveAll(mappings, inst, keys, produce).Ok?
    ensures var (args, inst') := ResolveAll(mappings, inst, keys, produce).value;
      && (forall i :: 0 <= i < |keys| ==> args[i] == ResolvedValue(mappings, inst, keys[i], produce))
      && (forall i :: 0 <= i < |keys| ==> GetValue(inst', keys[i]) == args[i])
      && (forall k :: k !in keys ==> GetValue(inst', k) == GetValue(inst, k))
      && (forall k :: k !in keys ==> (k in inst' <==> k in inst))
    decreases |keys|
  {
    if |keys| > 0 {
      var first := GetValueOrDefault(mappings, inst, keys[0], produce).value;
      var tail := keys[1..];
      DistinctTail(keys);
      ResolveFrame(mappings, inst, keys[0], produce);
      ResolveAllSpec(mappings, first.1, tail, produce);
      var (args, inst') := ResolveAll(mappings, inst, keys, produce).value;
      var rest := ResolveAll(mappings, first.1, tail, produce).value;
      assert args == [first.0] + rest.0 && inst' == rest.1;
      forall i | 0 <= i < |keys|
        ensures args[i] == ResolvedValue(mappings, inst, keys[i], produce)
        ensures GetValue(inst', keys[i]) == args[i]
      {
        if i > 0 {
          assert keys[i] == tail[i - 1] && args[i] == rest.0[i - 1];
        }
      }
      forall k | k !in keys
        ensures GetValue(inst', k) == GetValue(inst, k)
        ensures k in inst' <==> k in inst
      {
        assert k !in tail;
      }
    }
  }


  /** A name whose resolution neither stores nor depends on a factory. */
  predicate Settled(mappings: map<string, Field>, inst: Instance, key: string)
  {
    GetValue(inst, key) != PyNone || (key in mappings && mappings[key].default == Const(PyNone))
  }

  /** A settled name resolves to its current value and stores nothing. */
  lemma SettledResolution(mappings: map<string, Field>, inst: Instance, key: string, produce: string -> Value)
    requires Settled(mappings, inst, key)
    ensures GetValueOrDefault(mappings, inst, key, produce) == Ok((GetValue(inst, key), inst))
  {
  }

  lemma {:induction false} ResolveAllSettled(mappings: map<string, Field>, inst: Instance, keys: seq<string>, produce: string -> Value)
    requires forall k :: k in keys ==> Settled(mappings, inst, k)
    ensures ResolveAll(mappings, inst, keys, produce) == Ok((Values(inst, keys), inst))
    decreases |keys|
  {
    if |keys| > 0 {
      assert keys[0] in keys;
      SettledResolution(mappings, inst, keys[0], produce);
      assert forall k :: k in keys[1..] ==> k in keys;
      ResolveAllSettled(mappings, inst, keys[1..], produce);
      assert [GetValue(inst, keys[0])] + Values(inst, keys[1..]) == Values(inst, keys);
    }
  }

  // ---------------------------------------------------------------------------
  // Instance statements

  /** SQL text with `?` placeholders and the positional arguments for them. */
  datatype Statement = Statement(sql: string, args: seq<Value>)

  /** `save`: the insert template with the fields' values-or-defaults followed
      by the primary key's, and the instance with the resolved defaults stored. */
  function SaveStatement(d: Descriptor, inst: Instance, produce: string -> Value): Result<(Statement, Instance), OrmError>
  {
    var fs :- ResolveAll(d.mappings, inst, d.fields, produce);
    var pk :- GetValueOrDefault(d.mappings, fs.1, d.primaryKey, produce);
    Ok((Statement(d.insert, fs.0 + [pk.0]), pk.1))
  }

  /** `update`: the update template with the fields' current values (no
      defaults) followed by the primary key's. */
  function UpdateStatement(d: Descriptor, inst: Instance): Statement
  {
    Statement(d.update, Values(inst, d.fields) + [GetValue(inst, d.primaryKey)])
  }

  /** `remove`: the delete template with the primary key's value. */
  function RemoveStatement(d: Descriptor, inst: Instance): Statement
  {
    Statement(d.delete, [GetValue(inst, d.primaryKey)])
  }

  /** What `ModelMetaclass` guarantees about a descriptor it builds. */
  ghost predicate WellFormed(d: Descriptor)
  {
    && d.primaryKey in d.mappings
    && (forall f :: f in d.fields ==> f in d.mappings)
    && d.primaryKey !in d.fields
    && Distinct(d.fields)
  }

  /** Attribute names of a Python class body: non-empty and pairwise distinct. */
  ghost predicate ClassBody(decls: seq<Decl>)
  {
    && (forall i :: 0 <= i < |decls| ==> decls[i].0 != "")
    && Distinct(Keys(decls))
  }

  /** With distinct names, the first name is not among the later non-key ones. */
  lemma HeadNotInTail(decls: seq<Decl>)
    requires |decls| > 0 && Distinct(Keys(decls))
    ensures decls[0].0 !in Keys(NonKeyDecls(decls[1..]))
  {
    var tail := decls[1..];
    var nonKey := NonKeyDecls(tail);
    forall j | 0 <= j < |nonKey|
      ensures Keys(nonKey)[j] != decls[0].0
    {
      assert nonKey[j] in tail;
      var i :| 0 <= i < |tail| && tail[i] == nonKey[j];
      assert Keys(decls)[i + 1] == tail[i].0;
    }
  }

  lemma KeysTail(decls: seq<Decl>)
    requires |decls| > 0
    ensures Keys(decls[1..]) == Keys(decls)[1..]
  {
  }

  lemma KeysPrepend(d: Decl, ds: seq<Decl>)
    ensures Keys([d] + ds) == [d.0] + Keys(ds)
  {
  }

  /** Every non-key field name comes from a non-key declaration. */
  lemma {:induction false} NonKeyKeysOrigin(decls: seq<Decl>)
    ensures forall k :: k in Keys(NonKeyDecls(decls)) ==> exists i :: 0 <= i < |decls| && decls[i].0 == k && !decls[i].1.primaryKey
  {
    if |decls| > 0 {
      NonKeyKeysOrigin(decls[1..]);
      var rest := Keys(NonKeyDecls(decls[1..]));
      forall k | k in rest
        ensures exists i :: 0 <= i < |decls| && decls[i].0 == k && !decls[i].1.primaryKey
      {
        var i :| 0 <= i < |decls[1..]| && decls[1..][i].0 == k && !decls[1..][i].1.primaryKey;
        assert decls[i + 1].0 == k;
      }
      if !decls[0].1.primaryKey {
        assert Keys(NonKeyDecls(decls)) == [decls[0].0] + rest;
      } else {
        assert Keys(NonKeyDecls(decls)) == rest;
      }
    }
  }

  lemma DistinctTail<T>(s: seq<T>)
    requires |s| > 0 && Distinct(s)
    ensures s[0] !in s[1..] && Distinct(s[1..])
  {
    forall j | 0 <= j < |s| - 1
      ensures s[1..][j] != s[0]
    {
      assert s[1..][j] == s[j + 1];
    }
  }

  lemma DistinctCons<T>(x: T, s: seq<T>)
    requires x !in s && Distinct(s)
    ensures Distinct([x] + s)
  {
    forall i, j | 0 <= i < j < |[x] + s|
      ensures ([x] + s)[i] != ([x] + s)[j]
    {
      if i == 0 {
        assert ([x] + s)[j] == s[j - 1];
      } else {
        assert ([x] + s)[i] == s[i - 1] && ([x] + s)[j] == s[j - 1];
      }
    }
  }

  lemma NonKeyKeysDistinct(decls: seq<Decl>)
    requires Distinct(Keys(decls))
    ensures Distinct(Keys(NonKeyDecls(decls)))
    ensures forall k :: k in Keys(NonKeyDecls(decls)) ==> exists i :: 0 <= i < |decls| && decls[i].0 == k && !decls[i].1.primaryKey
  {
    NonKeyKeysStayDistinct(decls);
    NonKeyKeysOrigin(decls);
  }

  lemma {:induction false} NonKeyKeysStayDistinct(decls: seq<Decl>)
    requires Distinct(Keys(decls))
    ensures Distinct(Keys(NonKeyDecls(decls)))
  {
    if |decls| > 0 {
      var tail := decls[1..];
      DistinctTail(Keys(decls));
      KeysTail(decls);
      NonKeyKeysStayDistinct(tail);
      var rest := Keys(NonKeyDecls(tail));
      if !decls[0].1.primaryKey {
        HeadNotInTail(decls);
        DistinctCons(decls[0].0, rest);
        KeysPrepend(decls[0], NonKeyDecls(tail));
      }
    }
  }


  lemma {:induction false} PrimaryKeyOrigin(decls: seq<Decl>, k: string)
    requires k in PrimaryKeyNames(decls)
    ensures exists i :: 0 <= i < |decls| && decls[i].0 == k && decls[i].1.primaryKey
  {
    if decls[0].1.primaryKey && k == decls[0].0 {
    } else {
      PrimaryKeyOrigin(decls[1..], k);
      var i :| 0 <= i < |decls[1..]| && decls[1..][i].0 == k && decls[1..][i].1.primaryKey;
      assert decls[i + 1].0 == k;
    }
  }

  /** Every descriptor the metaclass builds from a class body is well formed. */
  lemma BuildWellFormed(className: string, tableAttr: Option<string>, decls: seq<Decl>)
    requires ClassBody(decls)
    requires Build(className, tableAttr, decls).Ok? && Build(className, tableAttr, decls).value.Some?
    ensures WellFormed(Build(className, tableAttr, decls).value.value)
  {
    BuildSpec(className, tableAttr, decls);
    var d := Build(className, tableAttr, decls).value.value;
    NonKeyKeysDistinct(decls);
    PrimaryKeyOrigin(decls, d.primaryKey);
    var p :| 0 <= p < |decls| && decls[p].0 == d.primaryKey && decls[p].1.primaryKey;
    assert decls[p] in decls;
    forall f | f in d.fields
      ensures f in d.mappings
      ensures f != d.primaryKey
    {
      var i :| 0 <= i < |decls| && decls[i].0 == f && !decls[i].1.primaryKey;
      assert decls[i] in decls;
      assert i != p;
      assert Keys(decls)[i] != Keys(decls)[p] || i == p;
    }
  }

  /** A descriptor built from a class body with plain names has one
      placeholder per field plus the key in its insert and update templates,
      and one in its delete template. */
  lemma BuiltTemplateCounts(className: string, tableAttr: Option<string>, decls: seq<Decl>)
    requires ClassBody(decls) && PlainNames(TableName(className, tableAttr), decls)
    requires Build(className, tableAttr, decls).Ok? && Build(className, tableAttr, decls).value.Some?
    ensures var d := Build(className, tableAttr, decls).value.value;
      && WellFormed(d)
      && Count('?', d.insert) == |d.fields| + 1
      && Count('?', d.update) == |d.fields| + 1
      && Count('?', d.delete) == 1
  {
    BuildSpec(className, tableAttr, decls);
    BuildWellFormed(className, tableAttr, decls);
    var d := Build(className, tableAttr, decls).value.value;
    var (pk, nonKey) := ScanFields(decls, "", []).value;
    ScanFieldsSpec(decls, "", []);
    assert [] + NonKeyDecls(decls) == NonKeyDecls(decls);
    assert d == Assemble(d.table, d.mappings, pk, nonKey);
    PrimaryKeyOrigin(decls, pk);
    var p :| 0 <= p < |decls| && decls[p].0 == pk && decls[p].1.primaryKey;
    assert '?' !in pk;
    assert PlainNames(d.table, nonKey) by {
      forall i | 0 <= i < |nonKey|
        ensures '?' !in nonKey[i].0 && '?' !in ColumnName(nonKey[i])
      {
        assert nonKey[i] in decls;
      }
    }
    TemplatePlaceholders(d.table, pk, nonKey);
  }

  /** Every `save`, `update` and `remove` of an instance of a descriptor built
      from a class body with plain names sends exactly as many arguments as
      its template has placeholders. */
  lemma StatementsAligned(className: string, tableAttr: Option<string>, decls: seq<Decl>,
                          inst: Instance, produce: string -> Value)
    requires ClassBody(decls) && PlainNames(TableName(className, tableAttr), decls)
    requires Build(className, tableAttr, decls).Ok? && Build(className, tableAttr, decls).value.Some?
    ensures var d := Build(className, tableAttr, decls).value.value;
      && SaveStatement(d, inst, produce).Ok?
      && Count('?', SaveStatement(d, inst, produce).value.0.sql) == |SaveStatement(d, inst, produce).value.0.args|
      && Count('?', UpdateStatement(d, inst).sql) == |UpdateStatement(d, inst).args|
      && Count('?', RemoveStatement(d, inst).sql) == |RemoveStatement(d, inst).args|
  {
    BuiltTemplateCounts(className, tableAttr, decls);
    var d := Build(className, tableAttr, decls).value.value;
    ResolveAllSpec(d.mappings, inst, d.fields, produce);
  }

  /** `save` resolves each default once and stores it: a second `save`, with
      whatever the factories would return then, sends the same statement and
      leaves the instance as the first one left it. */
  lemma SaveTwice(d: Descriptor, inst: Instance, produce: string -> Value, later: string -> Value)
    requires WellFormed(d)
    requires forall k :: produce(k) != PyNone
    ensures SaveStatement(d, inst, produce).Ok?
    ensures var (st, inst') := SaveStatement(d, inst, produce).value;
      SaveStatement(d, inst', later) == Ok((st, inst'))
  {
    ResolveAllSpec(d.mappings, inst, d.fields, produce);
    var (args, inst1) := ResolveAll(d.mappings, inst, d.fields, produce).value;
    var (pkv, inst') := GetValueOrDefault(d.mappings, inst1, d.primaryKey, produce).value;
    forall k | k in d.fields
      ensures Settled(d.mappings, inst', k)
      ensures GetValue(inst', k) == GetValue(inst1, k)
    {
      var i :| 0 <= i < |d.fields| && d.fields[i] == k;
      assert GetValue(inst', k) == GetValue(inst1, k);
      if GetValue(inst1, k) == PyNone {
        assert args[i] == ResolvedValue(d.mappings, inst, k, produce);
        assert GetValue(inst, k) == PyNone;
        assert DefaultValue(d.mappings[k].default, produce(k)) == PyNone;
      }
    }
    assert Settled(d.mappings, inst', d.primaryKey) by {
      if GetValue(inst', d.primaryKey) == PyNone {
        assert GetValue(inst1, d.primaryKey) == PyNone;
        assert DefaultValue(d.mappings[d.primaryKey].default, produce(d.primaryKey)) == PyNone;
      }
    }
    ResolveAllSettled(d.mappings, inst', d.fields, later);
    SettledResolution(d.mappings, inst', d.primaryKey, later);
    assert Values(inst', d.fields) == args;
  }

  // ---------------------------------------------------------------------------
  // Data access

  /** `sql.replace('?', '%s')`: the driver's placeholder syntax. */
  function ToDriverSql(sql: string): (r: string)
    ensures '?' !in r
    ensures |r| == |sql| + Count('?', sql)
    ensures Count('%', r) == Count('%', sql) + Count('?', sql)
  {
    if |sql| == 0 then ""
    else
      var rest := ToDriverSql(sql[1..]);
      CountAppend('%', if sql[0] == '?' then "%s" else [sql[0]], rest);
      (if sql[0] == '?' then "%s" else [sql[0]]) + rest
  }

  /** Reads driver syntax back: every `%s` becomes `?`. */
  function FromDriverSql(s: string): string
  {
    if |s| == 0 then ""
    else if 2 <= |s| && s[0] == '%' && s[1] == 's' then "?" + FromDriverSql(s[2..])
    else [s[0]] + FromDriverSql(s[1..])
  }

  /** The substitution loses nothing on SQL that has no `%` of its own. */
  lemma {:induction false} DriverSqlRoundTrip(sql: string)
    requires '%' !in sql
    ensures FromDriverSql(ToDriverSql(sql)) == sql
  {
    if |sql| > 0 {
      DriverSqlRoundTrip(sql[1..]);
      var rest := ToDriverSql(sql[1..]);
      if sql[0] == '?' {
        assert ("%s" + rest)[2..] == rest;
      } else {
        assert ([sql[0]] + rest)[1..] == rest;
      }
      assert sql == [sql[0]] + sql[1..];
    }
  }

  type Row = map<string, Value>

  /** The database as an oracle: result rows for driver SQL and its arguments. */
  type Database = (string, seq<Value>) -> seq<Row>

  /** The database as an oracle: affected-row count for driver SQL and its arguments. */
  type Executor = (string, seq<Value>) -> int

  /** A query for `select`; `size` 0 stands for `size=None` (fetch all). */
  datatype Query = Query(sql: string, args: seq<Value>, size: nat)

  /** `select(sql, args, size)`: all rows, or the first `size` of them. */
  function Select(db: Database, q: Query): (rows: seq<Row>)
    ensures var all := db(ToDriverSql(q.sql), q.args);
      && rows <= all
      && |rows| == (if q.size == 0 || |all| <= q.size then |all| else q.size)
  {
    var all := db(ToDriverSql(q.sql), q.args);
    if q.size > 0 && q.size < |all| then all[..q.size] else all
  }

  /** `execute(sql, args)`: the affected-row count. */
  function Execute(exec: Executor, st: Statement): int
  {
    exec(ToDriverSql(st.sql), st.args)
  }

  /** `save()`: the instance with defaults stored, and the affected rows
      (a count other than 1 is only logged). */
  function Save(exec: Executor, d: Descriptor, inst: Instance, produce: string -> Value): Result<(Instance, int), OrmError>
  {
    var saved :- SaveStatement(d, inst, produce);
    Ok((saved.1, Execute(exec, saved.0)))
  }

  function Update(exec: Executor, d: Descriptor, inst: Instance): int
  {
    Execute(exec, UpdateStatement(d, inst))
  }

  function Remove(exec: Executor, d: Descriptor, inst: Instance): int
  {
    Execute(exec, RemoveStatement(d, inst))
  }

  // ---------------------------------------------------------------------------
  // Finders

  /** The LIMIT clause text and arguments: an `int` gives one placeholder, a
      2-tuple two; any other value raises `ValueError`. */
  function LimitClause(limit: Value): (r: Result<(string, seq<Value>), OrmError>)
    ensures r.Ok? ==> Count('?', r.value.0) == |r.value.1|
    ensures IsInt(limit) ==> r == Ok(("?", [limit]))
    ensures !IsInt(limit) && limit.Tuple? && |limit.items| == 2 ==> r == Ok(("?, ?", limit.items))
    ensures r.Err? <==> !IsInt(limit) && !(limit.Tuple? && |limit.items| == 2)
    ensures r.Err? ==> r.error == InvalidLimit(limit)
  {
    if IsInt(limit) then
      assert Count('?', "?") == 1 by { assert "?"[1..] == ""; }
      Ok(("?", [limit]))
    else if limit.Tuple? && |limit.items| == 2 then
      assert Count('?', "?, ?") == 2 by { assert "?, ?"[1..] == ", ?"; assert ", ?"[1..] == " ?"; assert " ?"[1..] == "?"; assert "?"[1..] == ""; }
      Ok(("?, ?", limit.items))
    else Err(InvalidLimit(limit))
  }

  /** The select template followed by the optional `where` and `order by`
      clauses, as the list `findAll` joins with spaces. */
  function BaseClauses(select: string, where: string, orderBy: string): seq<string>
  {
    [select]
      + (if where != "" then ["where", where] else [])
      + (if orderBy != "" then ["order by", orderBy] else [])
  }

  lemma {:induction false} JoinAppend(parts: seq<string>, x: string, sep: string)
    requires |parts| > 0
    ensures Join(parts + [x], sep) == Join(parts, sep) + sep + x
  {
    if |parts| == 1 {
      assert (parts + [x])[1..] == [x];
    } else {
      assert (parts + [x])[1..] == parts[1..] + [x];
      JoinAppend(parts[1..], x, sep);
    }
  }

  /** Appending a keyword and its operand adds them after single spaces. */
  lemma JoinAppendClause(parts: seq<string>, keyword: string, operand: string)
    requires |parts| > 0
    ensures Join(parts + [keyword, operand], " ") == Join(parts, " ") + " " + keyword + " " + operand
  {
    JoinAppend(parts, keyword, " ");
    assert parts + [keyword] + [operand] == parts + [keyword, operand];
    JoinAppend(parts + [keyword], operand, " ");
  }

  lemma BaseClausesSql(select: string, where: string, orderBy: string)
    ensures Join(BaseClauses(select, where, orderBy), " ")
         == select + (if where != "" then " where " + where else "")
                   + (if orderBy != "" then " order by " + orderBy else "")
  {
    var c0 := [select];
    var c1 := c0 + (if where != "" then ["where", where] else []);
    if where != "" {
      JoinAppendClause(c0, "where", where);
    } else {
      assert c1 == c0;
    }
    if orderBy != "" {
      JoinAppendClause(c1, "order by", orderBy);
    } else {
      assert BaseClauses(select, where, orderBy) == c1;
    }
  }

  /** The SQL and arguments of `findAll(where, args, orderBy=, limit=)`;
      `""` stands for an absent (or empty) `where` / `orderBy`, `PyNone` for
      an absent `limit`, and `args=None` becomes `[]`. */
  function FindAllQuery(d: Descriptor, where: string, args: Option<seq<Value>>, orderBy: string, limit: Value)
    : (r: Result<Query, OrmError>)
    ensures r.Err? <==> limit != PyNone && !IsInt(limit) && !(limit.Tuple? && |limit.items| == 2)
    ensures r.Ok? ==> r.value.size == 0
    ensures r.Ok? ==> args.GetOr([]) <= r.value.args
  {
    var base := args.GetOr([]);
    var clauses := BaseClauses(d.select, where, orderBy);
    if limit == PyNone then Ok(Query(Join(clauses, " "), base, 0))
    else
      var lc :- LimitClause(limit);
      Ok(Query(Join(clauses + ["limit", lc.0], " "), base + lc.1, 0))
  }

  /** The clauses of `findAll` appear in the order select, where, order by,
      limit, each after its keyword and separated by single spaces; the limit
      arguments follow the caller's. */
  lemma FindAllSql(d: Descriptor, where: string, args: Option<seq<Value>>, orderBy: string, limit: Value)
    requires FindAllQuery(d, where, args, orderBy, limit).Ok?
    ensures var q := FindAllQuery(d, where, args, orderBy, limit).value;
      && q.sql == d.select
           + (if where != "" then " where " + where else "")
           + (if orderBy != "" then " order by " + orderBy else "")
           + (if limit == PyNone then "" else " limit " + LimitClause(limit).value.0)
      && q.args == args.GetOr([]) + (if limit == PyNone then [] else LimitClause(limit).value.1)
  {
    BaseClausesSql(d.select, where, orderBy);
    if limit != PyNone {
      JoinAppendClause(BaseClauses(d.select, where, orderBy), "limit", LimitClause(limit).value.0);
    }
  }

  /** `findAll` keeps placeholders and arguments aligned: when the where clause
      has one placeholder per caller argument and the rest of the text none,
      the SQL has one placeholder per argument sent. */
  lemma FindAllAligned(d: Descriptor, where: string, args: Option<seq<Value>>, orderBy: string, limit: Value)
    requires FindAllQuery(d, where, args, orderBy, limit).Ok?
    requires '?' !in d.select && '?' !in orderBy
    requires Count('?', where) == |args.GetOr([])|
    ensures var q := FindAllQuery(d, where, args, orderBy, limit).value;
      Count('?', q.sql) == |q.args|
  {
    FindAllSql(d, where, args, orderBy, limit);
    var tail := if limit == PyNone then "" else " limit " + LimitClause(limit).value.0;
    ClausesCount(d.select, where, orderBy, tail);
    if limit != PyNone {
      LimitTail(LimitClause(limit).value.0);
    } else {
      CountAbsent('?', "");
    }
  }

  /** The ` limit ` keyword adds no placeholder to its clause. */
  lemma LimitTail(clause: string)
    ensures Count('?', " limit " + clause) == Count('?', clause)
  {
    CountAppend('?', " limit ", clause);
    CountAbsent('?', " limit ");
  }

  /** The select text with its optional clauses has the where clause's
      placeholders and the tail's, and no others. */
  lemma ClausesCount(select: string, where: string, orderBy: string, tail: string)
    requires '?' !in select && '?' !in orderBy
    ensures Count('?', select + (if where != "" then " where " + where else "")
                       + (if orderBy != "" then " order by " + orderBy else "") + tail)
         == Count('?', where) + Count('?', tail)
  {
    var w := if where != "" then " where " + where else "";
    var o := if orderBy != "" then " order by " + orderBy else "";
    OptionalClause(" where ", where);
    OptionalClause(" order by ", orderBy);
    CountAbsent('?', orderBy);
    CountAbsent('?', select);
    CountFour(select, w, o, tail);
  }

  lemma CountFour(a: string, b: string, c: string, d: string)
    ensures Count('?', a + b + c + d) == Count('?', a) + Count('?', b) + Count('?', c) + Count('?', d)
  {
    CountAppend('?', a, b);
    CountAppend('?', a + b, c);
    CountAppend('?', a + b + c, d);
  }

  /** An optional clause adds the placeholders of its operand only. */
  lemma OptionalClause(keyword: string, operand: string)
    requires '?' !in keyword
    ensures Count('?', if operand != "" then keyword + operand else "") == Count('?', operand)
  {
    CountAbsent('?', keyword);
    CountAppend('?', keyword, operand);
    if operand == "" {
      CountAbsent('?', "");
    }
  }

  /** `findAll(...)`: the matching rows as instances, or the `ValueError` of a bad limit. */
  function FindAll(db: Database, d: Descriptor, where: string, args: Option<seq<Value>>, orderBy: string, limit: Value)
    : Result<seq<Instance>, OrmError>
  {
    var q :- FindAllQuery(d, where, args, orderBy, limit);
    Ok(Select(db, q))
  }

  /** The query of `findById(pk)`: the select template restricted to the key, one row. */
  function FindByIdQuery(d: Descriptor, pk: Value): Query
  {
    Query(d.select + " where `" + d.primaryKey + "`=?", [pk], 1)
  }

  /** `findById(pk)`: the first row as an instance, `None` when no row comes back. */
  function FindById(db: Database, d: Descriptor, pk: Value): (r: Option<Instance>)
    ensures var all := db(ToDriverSql(FindByIdQuery(d, pk).sql), [pk]);
      && (r.None? <==> |all| == 0)
      && (r.Some? ==> r.value == all[0])
  {
    var rows := Select(db, FindByIdQuery(d, pk));
    if |rows| == 0 then None else Some(rows[0])
  }

  /** The query of `findNumber(selectField, where, args)`: one row. */
  function FindNumberQuery(d: Descriptor, selectField: string, where: string, args: Option<seq<Value>>): Query
  {
    var head := "select " + selectField + " _num_ from `" + d.table + "`";
    Query(Join([head] + (if where != "" then ["where", where] else []), " "), args.GetOr([]), 1)
  }

  /** `findNumber`: the `_num_` column of the first row, `None` when no row
      comes back, `KeyError` when the row has no such column. */
  function FindNumber(db: Database, d: Descriptor, selectField: string, where: string, args: Option<seq<Value>>)
    : (r: Result<Option<Value>, OrmError>)
    ensures var all := db(ToDriverSql(FindNumberQuery(d, selectField, where, args).sql), args.GetOr([]));
      && (r == Ok(None) <==> |all| == 0)
      && (r.Ok? && r.value.Some? ==> "_num_" in all[0] && r.value.value == all[0]["_num_"])
      && (r.Err? <==> |all| > 0 && "_num_" !in all[0])
  {
    var rows := Select(db, FindNumberQuery(d, selectField, where, args));
    if |rows| == 0 then Ok(None)
    else if "_num_" in rows[0] then Ok(Some(rows[0]["_num_"]))
    else Err(KeyError("_num_"))
  }

  /** The findNumber SQL in full. */
  lemma FindNumberSql(d: Descriptor, selectField: string, where: string, args: Option<seq<Value>>)
    ensures FindNumberQuery(d, selectField, where, args).sql
         == "select " + selectField + " _num_ from `" + d.table + "`" + (if where != "" then " where " + where else "")
  {
    var head := "select " + selectField + " _num_ from `" + d.table + "`";
    if where != "" {
      JoinAppendClause([head], "where", where);
    }
  }

  /** `update` sends an unset field as `None` where `save` would send (and
      store) its default: the two statements agree on a field only once it is
      set. */
  lemma UpdateIgnoresDefaults(d: Descriptor, inst: Instance, produce: string -> Value, i: nat)
    requires WellFormed(d) && i < |d.fields|
    requires GetValue(inst, d.fields[i]) == PyNone
    requires d.mappings[d.fields[i]].default.Factory? && produce(d.fields[i]) != PyNone
    ensures UpdateStatement(d, inst).args[i] == PyNone
    ensures SaveStatement(d, inst, produce).Ok?
    ensures SaveStatement(d, inst, produce).value.0.args[i] == produce(d.fields[i])
    ensures GetValue(SaveStatement(d, inst, produce).value.1, d.fields[i]) == produce(d.fields[i])
  {
    ResolveAllSpec(d.mappings, inst, d.fields, produce);
    var (args, inst1) := ResolveAll(d.mappings, inst, d.fields, produce).value;
    assert d.fields[i] in d.fields;
    assert d.primaryKey != d.fields[i];
  }

  /** `findAll` fails exactly on a bad limit, and otherwise returns every row
      the database yields for its one query. */
  lemma FindAllRows(db: Database, d: Descriptor, where: string, args: Option<seq<Value>>, orderBy: string, limit: Value)
    ensures var q := FindAllQuery(d, where, args, orderBy, limit);
      && (FindAll(db, d, where, args, orderBy, limit).Err? <==> q.Err?)
      && (q.Ok? ==> FindAll(db, d, where, args, orderBy, limit).value == db(ToDriverSql(q.value.sql), q.value.args))
  {
  }
}
