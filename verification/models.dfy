/** The blog's three entity schemas (models.py) as concrete declaration lists,
    and the primary-key generator `next_id` with the clock and the random uuid
    passed in. */
module Models {
  import opened Wrappers
  import opened PyValue
  import opened Text
  import opened Orm

  /** `next_id()`: the millisecond clock `ms` zero-padded to 15 digits, the
      uuid4 hex string `hex`, then `000`. The digits read back as `ms`. */
  function NextId(ms: nat, hex: string): (id: string)
    ensures var n := if |Decimal(ms)| < 15 then 15 else |Decimal(ms)|;
      && |id| == n + |hex| + 3
      && IsDigits(id[..n]) && DigitsValue(id[..n]) == ms
      && id[n..n + |hex|] == hex
      && id[n + |hex|..] == "000"
  {
    var digits := ZeroPad(Decimal(ms), 15);
    ZeroPadValue(Decimal(ms), 15);
    DecimalRoundTrip(ms);
    var id := digits + hex + "000";
    var n := if |Decimal(ms)| < 15 then 15 else |Decimal(ms)|;
    assert |digits| == n;
    assert id[..n] == digits;
    assert id[n..n + |hex|] == hex;
    id
  }

  /** While the clock is below 10^15 ms and the hex is a full uuid, an id is 50 characters. */
  lemma NextIdLength(ms: nat, hex: string)
    requires ms < Pow10(15) && |hex| == 32
    ensures |NextId(ms, hex)| == 50
    ensures DigitsValue(NextId(ms, hex)[..15]) == ms
  {
    DecimalLength(ms, 15);
  }

  /** The `id` column every schema declares: the primary key, defaulting to `next_id()`. */
  function IdField(): Field
  {
    StringField(primaryKey := true, default := Factory("next_id"), ddl := "varchar(50)")
  }

  /** `created_at`: a float column defaulting to `time.time()`. */
  function CreatedAtField(): Field
  {
    FloatField(default := Factory("time.time"))
  }

  const UserDecls: seq<Decl> := [
    ("id", IdField()),
    ("email", StringField(ddl := "varchar(50)")),
    ("passwd", StringField(ddl := "varchar(50)")),
    ("admin", BooleanField()),
    ("name", StringField(ddl := "varchar(50)")),
    ("image", StringField(ddl := "varchar(500)")),
    ("created_at", CreatedAtField())
  ]

  const BlogDecls: seq<Decl> := [
    ("id", IdField()),
    ("user_id", StringField(ddl := "varchar(50)")),
    ("user_name", StringField(ddl := "varchar(50)")),
    ("user_image", StringField(ddl := "varchar(500)")),
    ("name", StringField(ddl := "varchar(50)")),
    ("summary", StringField(ddl := "varchar(200)")),
    ("content", TextField()),
    ("created_at", CreatedAtField())
  ]

  const CommentDecls: seq<Decl> := [
    ("id", IdField()),
    ("blog_id", StringField(ddl := "varchar(50)")),
    ("user_id", StringField(ddl := "varchar(50)")),
    ("user_name", StringField(ddl := "varchar(50)")),
    ("user_image", StringField(ddl := "varchar(500)")),
    ("content", TextField()),
    ("created_at", CreatedAtField())
  ]

  /** A schema whose first declaration is the only primary key. */
  lemma {:induction false} KeyedFirst(decls: seq<Decl>)
    requires |decls| > 0 && decls[0].1.primaryKey
    requires forall i :: 1 <= i < |decls| ==> !decls[i].1.primaryKey
    ensures PrimaryKeyNames(decls) == [decls[0].0]
    ensures NonKeyDecls(decls) == decls[1..]
  {
    NoPrimaryKeys(decls[1..]);
  }

  lemma {:induction false} NoPrimaryKeys(decls: seq<Decl>)
    requires forall i :: 0 <= i < |decls| ==> !decls[i].1.primaryKey
    ensures PrimaryKeyNames(decls) == []
    ensures NonKeyDecls(decls) == decls
  {
    if |decls| > 0 {
      NoPrimaryKeys(decls[1..]);
      assert [decls[0]] + decls[1..] == decls;
    }
  }

  /** The descriptor of a schema declaring `id` first as its only key. */
  lemma SchemaShape(className: string, table: string, decls: seq<Decl>)
    requires className != "Model" && table != ""
    requires |decls| > 0 && decls[0] == ("id", IdField())
    requires forall i :: 1 <= i < |decls| ==> !decls[i].1.primaryKey && decls[i].0 != "" && decls[i].0 != "id"
    ensures var r := Build(className, Some(table), decls);
      && r.Ok? && r.value.Some?
      && r.value.value.table == table
      && r.value.value.primaryKey == "id"
      && r.value.value.fields == Keys(decls[1..])
      && r.value.value.mappings["id"] == IdField()
      && r.value.value.select == SelectTemplate(table, "id", Keys(decls[1..]))
      && r.value.value.insert == InsertTemplate(table, "id", Keys(decls[1..]))
      && r.value.value.update == UpdateTemplateAsWritten(table, "id", decls[1..])
      && r.value.value.delete == DeleteTemplate(table, "id")
  {
    KeyedFirst(decls);
    BuildSpec(className, Some(table), decls);
    MappingsLookup(decls, 0);
  }

  /** A schema as `models.py` declares them: `id` first and the only key,
      every other attribute named, non-key and declared once. */
  ghost predicate EntitySchema(decls: seq<Decl>)
  {
    && |decls| > 0 && decls[0] == ("id", IdField())
    && (forall i :: 1 <= i < |decls| ==> !decls[i].1.primaryKey && decls[i].0 != "" && decls[i].0 != "id")
    && Distinct(Keys(decls))
  }

  /** Saving a new entity (no `id` yet) inserts under a fresh `next_id()`
      value, passed last, and stores it on the instance; a field left unset
      takes its declared default, and `created_at` the clock's reading. */
  lemma SaveAssignsId(className: string, table: string, decls: seq<Decl>, inst: Instance, produce: string -> Value)
    requires className != "Model" && table != ""
    requires EntitySchema(decls)
    requires GetValue(inst, "id") == PyNone
    ensures var b := Build(className, Some(table), decls);
      b.Ok? && b.value.Some? &&
      var d := b.value.value;
      var r := SaveStatement(d, inst, produce);
      && r.Ok?
      && r.value.0.sql == d.insert
      && |r.value.0.args| == |decls|
      && r.value.0.args[|decls| - 1] == produce("id")
      && GetValue(r.value.1, "id") == produce("id")
      && (forall i :: 1 <= i < |decls| ==>
            r.value.0.args[i - 1] == ResolvedValue(d.mappings, inst, decls[i].0, produce))
  {
    SchemaShape(className, table, decls);
    BuildWellFormed(className, Some(table), decls);
    var d := Build(className, Some(table), decls).value.value;
    ResolveAllSpec(d.mappings, inst, d.fields, produce);
    var (args, inst1) := ResolveAll(d.mappings, inst, d.fields, produce).value;
    assert GetValue(inst1, "id") == PyNone;
    assert d.mappings["id"].default == Factory("next_id");
    forall i | 1 <= i < |decls|
      ensures d.fields[i - 1] == decls[i].0
    {
      assert d.fields == Keys(decls[1..]);
    }
  }

  /** `User` maps to `users`, keyed by `id` (default `next_id`), with its
      non-key fields in declaration order. */
  lemma UserSchema()
    ensures var r := Build("User", Some("users"), UserDecls);
      && r.Ok? && r.value.Some?
      && var d := r.value.value;
      && d.table == "users"
      && d.primaryKey == "id"
      && d.mappings["id"].default == Factory("next_id")
      && d.fields == ["email", "passwd", "admin", "name", "image", "created_at"]
  {
    SchemaShape("User", "users", UserDecls);
    UserFields();
  }


  const UserColumns: seq<string> := ["email", "passwd", "admin", "name", "image", "created_at"]

  lemma UserFields()
    ensures Keys(UserDecls[1..]) == UserColumns
  {
  }

  /** `Blog` maps to `blogs`, keyed by `id`, with its seven non-key fields in
      declaration order. */
  lemma BlogSchema()
    ensures var r := Build("Blog", Some("blogs"), BlogDecls);
      && r.Ok? && r.value.Some?
      && var d := r.value.value;
      && d.table == "blogs"
      && d.primaryKey == "id"
      && d.mappings["id"].default == Factory("next_id")
      && d.fields == ["user_id", "user_name", "user_image", "name", "summary", "content", "created_at"]
  {
    SchemaShape("Blog", "blogs", BlogDecls);
    BlogFields();
  }

  lemma BlogFields()
    ensures Keys(BlogDecls[1..]) == ["user_id", "user_name", "user_image", "name", "summary", "content", "created_at"]
  {
  }

  /** `Comment` maps to `comments`, keyed by `id`, with its six non-key fields
      in declaration order. */
  lemma CommentSchema()
    ensures var r := Build("Comment", Some("comments"), CommentDecls);
      && r.Ok? && r.value.Some?
      && var d := r.value.value;
      && d.table == "comments"
      && d.primaryKey == "id"
      && d.mappings["id"].default == Factory("next_id")
      && d.fields == ["blog_id", "user_id", "user_name", "user_image", "content", "created_at"]
  {
    SchemaShape("Comment", "comments", CommentDecls);
    CommentFields();
  }

  lemma CommentFields()
    ensures Keys(CommentDecls[1..]) == ["blog_id", "user_id", "user_name", "user_image", "content", "created_at"]
  {
  }

  /** The three schemas are class bodies of the expected shape. */
  lemma UserWellShaped()
    ensures EntitySchema(UserDecls)
  {
    assert Keys(UserDecls) == ["id", "email", "passwd", "admin", "name", "image", "created_at"];
  }

  lemma BlogWellShaped()
    ensures EntitySchema(BlogDecls)
  {
    assert Keys(BlogDecls) == ["id", "user_id", "user_name", "user_image", "name", "summary", "content", "created_at"];
  }

  lemma CommentWellShaped()
    ensures EntitySchema(CommentDecls)
  {
    assert Keys(CommentDecls) == ["id", "blog_id", "user_id", "user_name", "user_image", "content", "created_at"];
  }

  /** No `Blog` column name holds a backtick. */
  lemma BlogColumnsPlain()
    ensures forall i :: 0 <= i < |BlogDecls[1..]| ==> '`' !in ColumnName(BlogDecls[1..][i])
  {
    var nonKey := BlogDecls[1..];
    forall i | 0 <= i < |nonKey|
      ensures '`' !in ColumnName(nonKey[i])
    {
      assert nonKey[i] == BlogDecls[i + 1];
      assert nonKey[i].1.name == None;
      assert nonKey[i].0 in ["user_id", "user_name", "user_image", "name", "summary", "content", "created_at"];
    }
  }

  /** The `Blog` update template as the source writes it has seven SET items,
      hence an odd number of backticks and an identifier quote left open;
      the corrected template is balanced. */
  lemma BlogUpdateQuoting(nonKey: seq<Decl>)
    requires nonKey == BlogDecls[1..]
    ensures Count('`', UpdateTemplateAsWritten("blogs", "id", nonKey)) == 11
    ensures Count('`', UpdateTemplate("blogs", "id", nonKey)) == 18
  {
    BlogColumnsPlain();
    UpdateQuoting("blogs", "id", nonKey);
  }
}
