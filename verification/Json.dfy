/** JSON values, and the name pool of a brief as scripts/run_sandbox_proving.py collects it. */
module Json {
  import opened Text

  datatype Json =
    | Null
    | Bool(b: bool)
    | Num(n: int)
    | Str(s: string)
    | Arr(items: seq<Json>)
    | Obj(fields: map<string, Json>)

  /** `value.get(key)` of a dict, Null for a missing key or a value that is no dict. */
  function Get(value: Json, key: string): Json {
    if value.Obj? && key in value.fields then value.fields[key] else Null
  }

  /** Python's truth value. */
  predicate Truthy(value: Json) {
    match value
    case Null => false
    case Bool(b) => b
    case Num(n) => n != 0
    case Str(s) => s != ""
    case Arr(items) => items != []
    case Obj(fields) => fields != map[]
  }

  // ---------- sub-values by path ----------

  datatype Hop = Key(key: string) | Index(index: nat)

  /** The value at the end of a path, if the path exists. */
  function At(value: Json, path: seq<Hop>): Option<Json>
    decreases |path|
  {
    if path == [] then Some(value)
    else match path[0]
      case Key(k) => if value.Obj? && k in value.fields then At(value.fields[k], path[1..]) else None
      case Index(i) => if value.Arr? && i < |value.items| then At(value.items[i], path[1..]) else None
  }

  /** `name` is a whole string scalar or a dict key of this very value. */
  predicate Names(value: Json, name: string) {
    value == Str(name) || (value.Obj? && name in value.fields)
  }

  /** `name` is a dict key or a whole string scalar somewhere in `value`, at any depth. */
  ghost predicate NamedIn(value: Json, name: string) {
    exists path :: At(value, path).Some? && Names(At(value, path).value, name)
  }

  lemma NamedInChild(value: Json, hop: Hop, name: string)
    requires At(value, [hop]).Some? && NamedIn(At(value, [hop]).value, name)
    ensures NamedIn(value, name)
  {
    var child := At(value, [hop]).value;
    var path :| At(child, path).Some? && Names(At(child, path).value, name);
    assert ([hop] + path)[0] == hop && ([hop] + path)[1..] == path;
    assert At(value, [hop] + path) == At(child, path);
  }

  lemma NamedInCases(value: Json, name: string)
    requires NamedIn(value, name)
    ensures Names(value, name) || exists hop :: At(value, [hop]).Some? && NamedIn(At(value, [hop]).value, name)
  {
    var path :| At(value, path).Some? && Names(At(value, path).value, name);
    if path != [] {
      var hop := path[0];
      assert At(value, [hop]).Some?;
      assert At(At(value, [hop]).value, path[1..]) == At(value, path);
    }
  }

  lemma NamedInObj(value: Json)
    requires value.Obj?
    ensures forall n :: NamedIn(value, n) <==>
              exists k :: k in value.fields.Keys && (n == k || NamedIn(value.fields[k], n))
  {
    forall n | NamedIn(value, n) ensures exists k :: k in value.fields.Keys && (n == k || NamedIn(value.fields[k], n)) {
      NamedInCases(value, n);
      if hop :| At(value, [hop]).Some? && NamedIn(At(value, [hop]).value, n) {
        assert hop.key in value.fields.Keys;
      }
    }
    forall n, k | k in value.fields.Keys && (n == k || NamedIn(value.fields[k], n)) ensures NamedIn(value, n) {
      if n == k {
        assert At(value, []).Some? && Names(At(value, []).value, n);
      } else {
        assert At(value, [Key(k)]) == Some(value.fields[k]);
        NamedInChild(value, Key(k), n);
      }
    }
  }

  lemma NamedInArr(value: Json)
    requires value.Arr?
    ensures forall n :: NamedIn(value, n) <==> exists i :: 0 <= i < |value.items| && NamedIn(value.items[i], n)
  {
    forall n | NamedIn(value, n) ensures exists i :: 0 <= i < |value.items| && NamedIn(value.items[i], n) {
      NamedInCases(value, n);
      var hop :| At(value, [hop]).Some? && NamedIn(At(value, [hop]).value, n);
      assert At(value, [hop]) == Some(value.items[hop.index]);
      assert NamedIn(value.items[hop.index], n);
    }
    forall n, i | 0 <= i < |value.items| && NamedIn(value.items[i], n) ensures NamedIn(value, n) {
      assert At(value, [Index(i)]) == Some(value.items[i]);
      NamedInChild(value, Index(i), n);
    }
  }

  lemma NamedInScalar(value: Json)
    requires !value.Obj? && !value.Arr?
    ensures forall n :: NamedIn(value, n) <==> value == Str(n)
  {
    forall n | NamedIn(value, n) ensures value == Str(n) {
      NamedInCases(value, n);
    }
    forall n | value == Str(n) ensures NamedIn(value, n) {
      assert At(value, []).Some? && Names(At(value, []).value, n);
    }
  }

  // ---------- the accumulating collector ----------

  /** The set object the collector is handed and adds to. */
  class NamePool {
    var names: set<string>

    constructor (names: set<string>)
      ensures this.names == names
    {
      this.names := names;
    }

    /** `collect_brief_names`: adds exactly the keys and string scalars of every depth. */
    method Collect(value: Json)
      modifies this
      ensures forall n :: n in names <==> n in old(names) || NamedIn(value, n)
      decreases value, 1
    {
      match value
      case Obj(fields) => CollectFields(value);
      case Arr(items) =>
        NamedInArr(value);
        for i := 0 to |items|
          invariant forall n :: n in names <==> n in old(names) || exists j :: 0 <= j < i && NamedIn(items[j], n)
        {
          Collect(items[i]);
        }
      case Str(s) =>
        names := names + {s};
        NamedInScalar(value);
      case _ => NamedInScalar(value);
    }

    method CollectFields(value: Json)
      requires value.Obj?
      modifies this
      ensures forall n :: n in names <==> n in old(names) || NamedIn(value, n)
      decreases value, 0
    {
      NamedInObj(value);
      var left := value.fields.Keys;
      while left != {}
        invariant left <= value.fields.Keys
        invariant forall n :: n in names <==>
          n in old(names) || exists k :: k in value.fields.Keys - left && (n == k || NamedIn(value.fields[k], n))
      {
        var k :| k in left;
        names := names + {k};
        Collect(value.fields[k]);
        left := left - {k};
      }
    }
  }

  // ---------- greenlights ----------

  datatype Refusal = Refusal

  const NEXT_BLOCK: string := "next_block"

  /** `build_s1_greenlight_resolved` */
  function BuildS1Greenlight(brief: Json): (r: Result<map<string, Json>, Refusal>) {
    var resolved := Get(brief, "resolved");
    if !resolved.Obj? || resolved.fields == map[] then Err(Refusal)
    else Ok(resolved.fields[NEXT_BLOCK := Str("submit-s2")])
  }

  /** `provenance_shape_problems`: the keys that are neither meta nor named in the brief. */
  method ProvenanceShapeProblems(resolved: map<string, Json>, brief: Json) returns (problems: set<string>)
    ensures forall k :: k in problems <==> k in resolved && k != NEXT_BLOCK && !NamedIn(brief, k)
  {
    var pool := new NamePool({});
    pool.Collect(brief);
    problems := set k | k in resolved && k != NEXT_BLOCK && k !in pool.names;
  }

  /** Every key of a greenlight built from a brief is meta or named in that brief: the driver's
      self-check cannot fire. */
  lemma GreenlightIsBriefShaped(brief: Json, key: string)
    requires BuildS1Greenlight(brief).Ok? && key in BuildS1Greenlight(brief).value && key != NEXT_BLOCK
    ensures NamedIn(brief, key)
  {
    var path := [Key("resolved")];
    assert At(brief, path) == At(Get(brief, "resolved"), path[1..]);
    assert Names(At(brief, path).value, key);
  }

  /** The value below a chain of keys, if every key is there. */
  function Field(value: Json, keys: seq<string>): Option<Json> {
    At(value, Hops(keys))
  }

  function Hops(keys: seq<string>): seq<Hop> {
    seq(|keys|, k requires 0 <= k < |keys| => Key(keys[k]))
  }

  lemma FieldUnfolds(value: Json, key: string, keys: seq<string>)
    ensures Field(value, []) == Some(value)
    ensures Field(value, [key] + keys)
         == if value.Obj? && key in value.fields then Field(value.fields[key], keys) else None
  {
    var path := Hops([key] + keys);
    assert path[0] == Key(key) && path[1..] == Hops(keys);
    assert Hops([]) == [];
  }

  /** Read key by key, a missing field and a null are the same; anything else is what stands there. */
  lemma GetIsField(value: Json, key: string)
    ensures Get(value, key) == match Field(value, [key]) case Some(v) => v case None => Null
  {
    FieldUnfolds(value, key, []);
    assert [key] + [] == [key];
    if value.Obj? && key in value.fields { FieldUnfolds(value.fields[key], key, []); }
  }

  lemma GetGetIsField(value: Json, a: string, b: string)
    ensures Get(Get(value, a), b) == match Field(value, [a, b]) case Some(v) => v case None => Null
  {
    FieldUnfolds(value, a, [b]);
    assert [a] + [b] == [a, b];
    if value.Obj? && a in value.fields { GetIsField(value.fields[a], b); }
  }

  lemma GetGetGetIsField(value: Json, a: string, b: string, c: string)
    ensures Get(Get(Get(value, a), b), c) == match Field(value, [a, b, c]) case Some(v) => v case None => Null
  {
    FieldUnfolds(value, a, [b, c]);
    assert [a] + [b, c] == [a, b, c];
    if value.Obj? && a in value.fields { GetGetIsField(value.fields[a], b, c); }
  }

  /** What counts as empty. */
  lemma FalsyExactly(value: Json)
    ensures !Truthy(value) <==> value in {Null, Bool(false), Num(0), Str(""), Arr([]), Obj(map[])}
  {
  }

  /** The greenlight exists exactly for a resolved block that is not empty; it carries every entry of that
      block over and names the next block. */
  lemma GreenlightCarriesResolved(brief: Json, key: string)
    ensures BuildS1Greenlight(brief).Ok?
       <==> exists fields :: Field(brief, ["resolved"]) == Some(Obj(fields)) && fields != map[]
    ensures BuildS1Greenlight(brief).Ok? ==>
              var g, fields := BuildS1Greenlight(brief).value, Field(brief, ["resolved"]).value.fields;
              && "next_block" in g && g["next_block"] == Str("submit-s2")
              && (key != "next_block" ==>
                    (key in g <==> key in fields) && (key in g ==> g[key] == fields[key]))
  {
    GetIsField(brief, "resolved");
    if BuildS1Greenlight(brief).Ok? {
      assert Field(brief, ["resolved"]) == Some(Obj(Get(brief, "resolved").fields));
    }
  }
}
