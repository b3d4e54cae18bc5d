/**
 * The parser-function arguments of `{{#querylink: page | label | name=value ... }}`:
 * `parseParameters` sorts them into unnamed, known and unknown named parameters,
 * `applyDefaultParams` fills in and coerces the known options, and
 * `parserFunctionQueryLink` gives up early without a page name or a query.
 */
module Parameters {
  import opened Wrappers
  import opened Php

  // ---------------------------------------------------------------- parseParameters

  /** How `parseParameters` sorts one argument. */
  datatype Item = Unnamed(text: string) | Named(known: bool, key: string, value: string)

  /** A named key as stored among the known parameters: spaces become `-`. */
  function Hyphenate(k: string): (r: string)
    ensures |r| == |k| && ' ' !in r
  {
    ReplaceChar(k, ' ', '-')
  }

  /**
   * One argument: without `=` it is unnamed and kept verbatim; otherwise it is split at
   * the first `=`, both halves trimmed, and the key is known when it or its hyphenated
   * form is one of `defaults`.
   */
  function Classify(arg: string, defaults: seq<string>): (r: Item)
    ensures r.Unnamed? <==> '=' !in arg
    ensures r.Unnamed? ==> r.text == arg
    ensures r.Named? && r.known ==> ' ' !in r.key
  {
    if '=' !in arg then Unnamed(arg)
    else
      var (k0, v0) := SplitAtFirst(arg, '=');
      var k := Trim(k0);
      if k in defaults || Hyphenate(k) in defaults then Named(true, Hyphenate(k), Trim(v0))
      else Named(false, k, Trim(v0))
  }

  /**
   * A named argument is split at its first `=`: the key is the trimmed part before it
   * (hyphenated when known), the value the trimmed rest, which may hold further `=`.
   */
  lemma ClassifyNamed(k: string, v: string, defaults: seq<string>)
    requires '=' !in k
    ensures var r := Classify(k + "=" + v, defaults);
      && r.Named? && r.value == Trim(v)
      && (r.known <==> Trim(k) in defaults || Hyphenate(Trim(k)) in defaults)
      && r.key == (if r.known then Hyphenate(Trim(k)) else Trim(k))
  {
    SplitAtFirstOf(k, '=', v);
  }

  /** The three arrays `[$a, $b, $c]` that `parseParameters` returns. */
  datatype Parsed = Parsed(unnamed: seq<string>, known: map<string, string>, unknown: map<string, string>)

  /** The named arrays: `known` for `$b`, otherwise `$c`. */
  function Bucket(p: Parsed, known: bool): map<string, string> {
    if known then p.known else p.unknown
  }

  /** Every argument, classified. */
  function Classified(args: seq<string>, defaults: seq<string>): (r: seq<Item>)
    ensures |r| == |args|
    decreases |args|
  {
    if args == [] then [] else Classified(args[..|args| - 1], defaults) + [Classify(args[|args| - 1], defaults)]
  }

  lemma {:induction false} ClassifiedIndex(args: seq<string>, defaults: seq<string>, i: int)
    requires 0 <= i < |args|
    ensures Classified(args, defaults)[i] == Classify(args[i], defaults)
    decreases |args|
  {
    if i < |args| - 1 {
      ClassifiedIndex(args[..|args| - 1], defaults, i);
    }
  }

  /** One classified argument added to what has been collected. */
  function Add(p: Parsed, item: Item): Parsed {
    match item
    case Unnamed(t) => p.(unnamed := p.unnamed + [t])
    case Named(true, k, v) => p.(known := p.known[k := v])
    case Named(false, k, v) => p.(unknown := p.unknown[k := v])
  }

  /** What `parseParameters` has collected after the classified arguments `items`. */
  function Collect(items: seq<Item>): Parsed
    decreases |items|
  {
    if items == [] then Parsed([], map[], map[])
    else Add(Collect(items[..|items| - 1]), items[|items| - 1])
  }

  /** One more argument of the loop. */
  lemma CollectStep(args: seq<string>, defaults: seq<string>, i: nat)
    requires i < |args|
    ensures Collect(Classified(args[..i + 1], defaults)) == Add(Collect(Classified(args[..i], defaults)), Classify(args[i], defaults))
  {
    var pre := args[..i + 1];
    assert pre[..|pre| - 1] == args[..i];
    var items := Classified(pre, defaults);
    assert items[..|items| - 1] == Classified(args[..i], defaults);
  }

  /** What `parseParameters` returns for `args`. */
  function ParseSpec(args: seq<string>, defaults: seq<string>): Parsed {
    Collect(Classified(args, defaults))
  }

  /** `parseParameters`. */
  method ParseParameters(args: seq<string>, defaults: seq<string>) returns (unnamed: seq<string>, known: map<string, string>, unknown: map<string, string>)
    ensures Parsed(unnamed, known, unknown) == ParseSpec(args, defaults)
  {
    unnamed, known, unknown := [], map[], map[];
    var i := 0;
    while i < |args|
      invariant 0 <= i <= |args|
      invariant Parsed(unnamed, known, unknown) == Collect(Classified(args[..i], defaults))
    {
      ghost var before := Parsed(unnamed, known, unknown);
      CollectStep(args, defaults, i);
      var arg := args[i];
      if '=' in arg {
        var (k0, v0) := SplitAtFirst(arg, '=');
        var k := Trim(k0);
        var hyphenated := Hyphenate(k);
        if k in defaults || hyphenated in defaults {
          assert Classify(arg, defaults) == Named(true, hyphenated, Trim(v0));
          known := known[hyphenated := Trim(v0)];
        } else {
          assert Classify(arg, defaults) == Named(false, k, Trim(v0));
          unknown := unknown[k := Trim(v0)];
        }
      } else {
        assert Classify(arg, defaults) == Unnamed(arg);
        unnamed := unnamed + [arg];
      }
      assert Parsed(unnamed, known, unknown) == Add(before, Classify(arg, defaults));
      i := i + 1;
    }
    assert args[..i] == args;
  }

  predicate HasNoEquals(arg: string) {
    '=' !in arg
  }

  /** The unnamed parameters are exactly the arguments without `=`, verbatim and in order. */
  lemma {:induction false} ParseUnnamed(args: seq<string>, defaults: seq<string>)
    ensures ParseSpec(args, defaults).unnamed == Filter(args, HasNoEquals)
    decreases |args|
  {
    if args != [] {
      var n := |args| - 1;
      var init := args[..n];
      var last := args[n];
      var items := Classified(args, defaults);
      assert items[..n] == Classified(init, defaults);
      assert ParseSpec(args, defaults).unnamed == ParseSpec(init, defaults).unnamed + Filter([last], HasNoEquals);
      ParseUnnamed(init, defaults);
      Snoc(args);
      FilterAppend(init, [last], HasNoEquals);
    }
  }

  /** Item `it` writes the named key `k` into the bucket `known`. */
  predicate Writes(it: Item, known: bool, k: string) {
    it.Named? && it.known == known && it.key == k
  }

  /** A named key is collected iff some item names it, and it holds the value of the last such item. */
  lemma CollectNamed(items: seq<Item>, known: bool, k: string)
    ensures k in Bucket(Collect(items), known) <==> exists i :: 0 <= i < |items| && Writes(items[i], known, k)
    ensures k in Bucket(Collect(items), known) ==>
      exists i :: 0 <= i < |items| && Writes(items[i], known, k) && items[i].value == Bucket(Collect(items), known)[k]
                  && forall j :: i < j < |items| ==> !Writes(items[j], known, k)
  {
    CollectDomain(items, known, k);
    if k in Bucket(Collect(items), known) {
      CollectValue(items, known, k);
    }
  }

  /** How one more item changes a bucket: only an item naming a key of that bucket writes it. */
  lemma BucketStep(items: seq<Item>, known: bool)
    requires items != []
    ensures var it := items[|items| - 1];
      Bucket(Collect(items), known) ==
        if it.Named? && it.known == known then Bucket(Collect(items[..|items| - 1]), known)[it.key := it.value]
        else Bucket(Collect(items[..|items| - 1]), known)
  {
  }

  /** The keys of a bucket are exactly the keys its items name. */
  lemma {:induction false} CollectDomain(items: seq<Item>, known: bool, k: string)
    ensures k in Bucket(Collect(items), known) <==> exists i :: 0 <= i < |items| && Writes(items[i], known, k)
    decreases |items|
  {
    if items != [] {
      var n := |items| - 1;
      var init := items[..n];
      CollectDomain(init, known, k);
      BucketStep(items, known);
      assert forall i :: 0 <= i < n ==> init[i] == items[i];
    }
  }

  /** A collected key holds the value of the last item naming it. */
  lemma {:induction false} CollectValue(items: seq<Item>, known: bool, k: string)
    requires k in Bucket(Collect(items), known)
    ensures exists i :: 0 <= i < |items| && Writes(items[i], known, k) && items[i].value == Bucket(Collect(items), known)[k]
                        && forall j :: i < j < |items| ==> !Writes(items[j], known, k)
    decreases |items|
  {
    var n := |items| - 1;
    var init := items[..n];
    var it := items[n];
    BucketStep(items, known);
    if Writes(it, known, k) {
      assert Bucket(Collect(items), known)[k] == items[n].value;
    } else {
      var prev := Bucket(Collect(init), known);
      assert k in prev && Bucket(Collect(items), known)[k] == prev[k];
      CollectValue(init, known, k);
      var i :| 0 <= i < n && Writes(init[i], known, k) && init[i].value == prev[k]
               && forall j :: i < j < n ==> !Writes(init[j], known, k);
      assert init[i] == items[i];
      forall j | i < j < |items|
        ensures !Writes(items[j], known, k)
      {
        if j < n {
          assert init[j] == items[j];
        }
      }
    }
  }

  /**
   * A named key is collected iff some argument names it, and its value is the trimmed
   * value of the last argument naming it.
   */
  lemma ParseNamed(args: seq<string>, defaults: seq<string>, known: bool, k: string)
    ensures k in Bucket(ParseSpec(args, defaults), known) <==> exists i :: 0 <= i < |args| && Writes(Classify(args[i], defaults), known, k)
    ensures k in Bucket(ParseSpec(args, defaults), known) ==>
      exists i :: 0 <= i < |args| && Writes(Classify(args[i], defaults), known, k)
                  && Classify(args[i], defaults).value == Bucket(ParseSpec(args, defaults), known)[k]
                  && forall j :: i < j < |args| ==> !Writes(Classify(args[j], defaults), known, k)
  {
    var items := Classified(args, defaults);
    CollectNamed(items, known, k);
    forall i | 0 <= i < |args|
      ensures items[i] == Classify(args[i], defaults)
    {
      ClassifiedIndex(args, defaults, i);
    }
  }

  // ---------------------------------------------------------------- applyDefaultParams

  /** A value after `applyDefaultParams`: a string, or the result of a coercion. */
  datatype Value = Str(s: string) | Flag(b: bool) | Int(n: int) | List(items: seq<string>)

  /** One entry of the defaults table: key, default value and declared type. */
  datatype ParamDefault = ParamDefault(key: string, default: string, kind: string)

  /** What `filter_var` strips before validating: space, \t, \r, \x0B and \n, but not \0. */
  predicate IsFilterSpace(c: char) {
    c == ' ' || c == '\t' || c == '\r' || c as int == 11 || c == '\n'
  }

  /** The trim the boolean and integer filters apply. */
  function FilterTrim(s: string): (r: string)
    ensures |r| <= |s|
  {
    TrimRight(TrimLeft(s, IsFilterSpace), IsFilterSpace)
  }

  /** `filter_var($s, FILTER_VALIDATE_BOOLEAN, FILTER_NULL_ON_FAILURE)`. */
  function FilterBool(s: string): (r: Option<bool>)
    ensures r == Some(true) <==> Lower(FilterTrim(s)) in ["1", "true", "on", "yes"]
    ensures r == Some(false) <==> Lower(FilterTrim(s)) in ["0", "false", "off", "no", ""]
  {
    var t := Lower(FilterTrim(s));
    if t in ["1", "true", "on", "yes"] then Some(true)
    else if t in ["0", "false", "off", "no", ""] then Some(false)
    else None
  }

  /** A decimal integer literal as `FILTER_VALIDATE_INT` accepts it: optional sign, no leading zero. */
  predicate IntLiteral(t: string) {
    var digits := if t != [] && (t[0] == '-' || t[0] == '+') then t[1..] else t;
    digits != [] && AllDigits(digits) && (digits[0] != '0' || digits == "0")
  }

  /** The number an integer literal denotes: its digits, negated after a `-`. */
  function LiteralValue(t: string): int
    requires IntLiteral(t)
  {
    if t[0] == '-' then -(DigitsValue(t[1..]) as int)
    else if t[0] == '+' then DigitsValue(t[1..])
    else DigitsValue(t)
  }

  /**
   * `filter_var($s, FILTER_VALIDATE_INT, FILTER_NULL_ON_FAILURE)`: a literal whose value
   * lies outside the 64-bit range fails like any other non-integer.
   */
  function FilterInt(s: string): (r: Option<int>)
    ensures r.Some? <==> IntLiteral(FilterTrim(s)) && IntMin <= LiteralValue(FilterTrim(s)) <= IntMax
    ensures r.Some? ==> r.value == LiteralValue(FilterTrim(s)) && IntMin <= r.value <= IntMax
    ensures r.Some? && IsDigit(FilterTrim(s)[0]) ==> r.value >= 0
  {
    var t := FilterTrim(s);
    if !IntLiteral(t) then None
    else
      var v := LiteralValue(t);
      if IntMin <= v <= IntMax then Some(v) else None
  }

  predicate NonEmpty(s: string) {
    !EmptyString(s)
  }

  /** The conversion `applyDefaultParams` applies to the chosen value `v` by declared type. */
  function Coerce(kind: string, v: string, default: string): (r: Value)
    ensures (kind == "bool" || kind == "boolean") ==> r.Flag?
    ensures (kind == "int" || kind == "integer") ==> r.Int?
    ensures kind == "array" ==> r.List? && forall i :: 0 <= i < |r.items| ==> NonEmpty(r.items[i]) && ',' !in r.items[i]
    ensures kind !in ["bool", "boolean", "int", "integer", "array"] ==> r == Str(v)
  {
    if kind == "bool" || kind == "boolean" then
      Flag(match FilterBool(v) case Some(b) => b case None => FilterBool(default).GetOr(false))
    else if kind == "array" then List(Filter(SplitCommaList(v), NonEmpty))
    else if kind == "int" || kind == "integer" then Int(FilterInt(v).GetOr(0))
    else Str(v)
  }

  /** A boolean option the caller gave unrecognisably falls back to its default, and then to false. */
  lemma BoolFallback(v: string, default: string)
    requires FilterBool(v).None?
    ensures Coerce("bool", v, default) == Flag(FilterBool(default) == Some(true))
  {
    var fallback := FilterBool(default);
    assert Coerce("bool", v, default) == Flag(fallback.GetOr(false));
    assert fallback.GetOr(false) == (fallback == Some(true));
  }

  /** The value the caller gave, or the default. */
  function Chosen(d: ParamDefault, params: map<string, string>): string {
    if d.key in params then params[d.key] else d.default
  }

  /** The value an entry of the defaults table receives: the chosen value, coerced to its type. */
  function Resolve(d: ParamDefault, params: map<string, string>): Value {
    Coerce(d.kind, Chosen(d, params), d.default)
  }

  /** Each entry of `defaults` in turn sets its key to `f` of the entry; a later entry wins. */
  function Assign(defaults: seq<ParamDefault>, params: map<string, string>, f: (ParamDefault, map<string, string>) -> Value): map<string, Value>
    decreases |defaults|
  {
    if defaults == [] then map[]
    else
      var d := defaults[|defaults| - 1];
      Assign(defaults[..|defaults| - 1], params, f)[d.key := f(d, params)]
  }

  /** The array `applyDefaultParams` returns. */
  function DefaultsSpec(defaults: seq<ParamDefault>, params: map<string, string>): map<string, Value> {
    Assign(defaults, params, Resolve)
  }

  /** `applyDefaultParams`. */
  method ApplyDefaultParams(defaults: seq<ParamDefault>, params: map<string, string>) returns (ret: map<string, Value>)
    ensures ret == DefaultsSpec(defaults, params)
  {
    ret := map[];
    var i := 0;
    while i < |defaults|
      invariant 0 <= i <= |defaults|
      invariant ret == Assign(defaults[..i], params, Resolve)
    {
      assert defaults[..i + 1][..i] == defaults[..i];
      var d := defaults[i];
      var val := d.default;
      if d.key in params {
        val := params[d.key];
      }
      assert val == Chosen(d, params);
      ret := ret[d.key := Coerce(d.kind, val, d.default)];
      assert ret == Assign(defaults[..i + 1], params, Resolve);
      i := i + 1;
    }
    assert defaults[..i] == defaults;
  }

  /** Keys of an associative array are distinct. */
  predicate DistinctKeys(defaults: seq<ParamDefault>) {
    forall i, j :: 0 <= i < j < |defaults| ==> defaults[i].key != defaults[j].key
  }

  /** The declared keys. */
  function DeclaredKeys(defaults: seq<ParamDefault>): set<string> {
    set i | 0 <= i < |defaults| :: defaults[i].key
  }

  lemma {:induction false} AssignKeys(defaults: seq<ParamDefault>, params: map<string, string>, f: (ParamDefault, map<string, string>) -> Value)
    ensures Assign(defaults, params, f).Keys == DeclaredKeys(defaults)
    decreases |defaults|
  {
    if defaults != [] {
      var n := |defaults| - 1;
      var init := defaults[..n];
      AssignKeys(init, params, f);
      assert Assign(defaults, params, f).Keys == Assign(init, params, f).Keys + {defaults[n].key};
      assert DeclaredKeys(defaults) == DeclaredKeys(init) + {defaults[n].key} by {
        forall k | k in DeclaredKeys(defaults) ensures k in DeclaredKeys(init) + {defaults[n].key} {
          var i :| 0 <= i < |defaults| && defaults[i].key == k;
          if i < n {
            assert init[i].key == k;
          }
        }
        forall k | k in DeclaredKeys(init) ensures k in DeclaredKeys(defaults) {
          var i :| 0 <= i < n && init[i].key == k;
          assert defaults[i] == init[i];
        }
      }
    }
  }

  lemma {:induction false} AssignValues(defaults: seq<ParamDefault>, params: map<string, string>, f: (ParamDefault, map<string, string>) -> Value, i: int)
    requires DistinctKeys(defaults)
    requires 0 <= i < |defaults|
    ensures defaults[i].key in Assign(defaults, params, f)
    ensures Assign(defaults, params, f)[defaults[i].key] == f(defaults[i], params)
    decreases |defaults|
  {
    var n := |defaults| - 1;
    if i < n {
      var init := defaults[..n];
      assert init[i] == defaults[i];
      assert DistinctKeys(init) by {
        forall a, b | 0 <= a < b < n ensures init[a].key != init[b].key {
          assert init[a] == defaults[a] && init[b] == defaults[b];
        }
      }
      AssignValues(init, params, f, i);
      assert defaults[n].key != defaults[i].key;
    }
  }

  /** The result has exactly the declared keys; other caller keys are dropped. */
  lemma DefaultsKeys(defaults: seq<ParamDefault>, params: map<string, string>)
    ensures DefaultsSpec(defaults, params).Keys == DeclaredKeys(defaults)
  {
    AssignKeys(defaults, params, Resolve);
  }

  /**
   * Each declared key holds the caller's value, or the default when the caller gave
   * none, coerced to its declared type.
   */
  lemma DefaultsValues(defaults: seq<ParamDefault>, params: map<string, string>, i: int)
    requires DistinctKeys(defaults)
    requires 0 <= i < |defaults|
    ensures defaults[i].key in DefaultsSpec(defaults, params)
    ensures DefaultsSpec(defaults, params)[defaults[i].key] == Coerce(defaults[i].kind, Chosen(defaults[i], params), defaults[i].default)
  {
    AssignValues(defaults, params, Resolve, i);
  }

  // ---------------------------------------------------------------- parserFunctionQueryLink

  const ClassAttrName := "class-attr-name"

  /** `$QueryLinkDefaultParameters`. */
  const QueryLinkDefaults: seq<ParamDefault> := [ParamDefault(ClassAttrName, "class", "string")]

  /** `empty()` of a value in the options array (a missing key is empty too). */
  predicate EmptyValue(v: Value) {
    match v
    case Str(s) => EmptyString(s)
    case Flag(b) => !b
    case Int(n) => n == 0
    case List(xs) => xs == []
  }

  /** What `parserFunctionQueryLink` gives: an early message, or the link it renders. */
  datatype QueryLinkResult =
    | NoPageName
    | NoQuery
    | Link(page: string, text: Option<string>, classAttr: Option<Value>, query: map<string, string>)

  /**
   * `parserFunctionQueryLink` on the arguments after the parser: `text` None stands for
   * the title's own text. The unknown parameter named by `class-attr-name` becomes the
   * link's class and leaves the query.
   */
  function QueryLink(argv: seq<string>): QueryLinkResult {
    var p := ParseSpec(argv, [ClassAttrName]);
    var options := DefaultsSpec(QueryLinkDefaults, p.known);
    if |p.unnamed| == 0 || EmptyString(p.unnamed[0]) then NoPageName
    else
      var name := if ClassAttrName in options && options[ClassAttrName].Str? then options[ClassAttrName].s else "";
      var options' := if name in p.unknown then options[name := Str(p.unknown[name])] else options;
      var query := p.unknown - {name};
      if |query| == 0 then NoQuery
      else
        var text := if |p.unnamed| > 1 && !EmptyString(p.unnamed[1]) then Some(p.unnamed[1]) else None;
        var attrKey := if ClassAttrName in options' && options'[ClassAttrName].Str? then options'[ClassAttrName].s else "";
        var cls := if attrKey in options' && !EmptyValue(options'[attrKey]) then Some(options'[attrKey]) else None;
        Link(p.unnamed[0], text, cls, query)
  }

  /** The option `class-attr-name` names the class attribute: the given value, else `class`. */
  lemma ClassAttrOption(argv: seq<string>)
    ensures var p := ParseSpec(argv, [ClassAttrName]);
      DefaultsSpec(QueryLinkDefaults, p.known) ==
        map[ClassAttrName := Str(if ClassAttrName in p.known then p.known[ClassAttrName] else "class")]
  {
    var p := ParseSpec(argv, [ClassAttrName]);
    var d := QueryLinkDefaults[0];
    assert |QueryLinkDefaults| == 1 && QueryLinkDefaults[..0] == [];
    assert DefaultsSpec(QueryLinkDefaults, p.known) == Assign(QueryLinkDefaults, p.known, Resolve);
    assert Assign(QueryLinkDefaults[..0], p.known, Resolve) == map[];
    assert Assign(QueryLinkDefaults, p.known, Resolve) == Assign(QueryLinkDefaults[..0], p.known, Resolve)[d.key := Resolve(d, p.known)];
    assert DefaultsSpec(QueryLinkDefaults, p.known) == map[][d.key := Resolve(d, p.known)];
  }

  /** No page name when no unnamed argument is given or the first one is empty. */
  lemma QueryLinkNoPageName(argv: seq<string>)
    ensures var p := ParseSpec(argv, [ClassAttrName]);
      QueryLink(argv) == NoPageName <==> (|p.unnamed| == 0 || EmptyString(p.unnamed[0]))
  {
  }

  /** The name of the class parameter: the `class-attr-name` option, else `class`. */
  function ClassParamName(argv: seq<string>): string {
    var p := ParseSpec(argv, [ClassAttrName]);
    if ClassAttrName in p.known then p.known[ClassAttrName] else "class"
  }

  /** With a page name, no query when the only unknown parameter (if any) is the class one. */
  lemma QueryLinkNoQuery(argv: seq<string>)
    ensures var p := ParseSpec(argv, [ClassAttrName]);
      QueryLink(argv) == NoQuery <==> (|p.unnamed| > 0 && !EmptyString(p.unnamed[0]) && p.unknown.Keys <= {ClassParamName(argv)})
  {
    ClassAttrOption(argv);
    var p := ParseSpec(argv, [ClassAttrName]);
    var name := ClassParamName(argv);
    assert (p.unknown - {name}).Keys == p.unknown.Keys - {name};
    assert |p.unknown - {name}| == 0 <==> p.unknown.Keys - {name} == {};
  }

  /** A rendered link carries every unknown parameter in its query except the class one. */
  lemma QueryLinkQuery(argv: seq<string>)
    requires QueryLink(argv).Link?
    ensures QueryLink(argv).query == ParseSpec(argv, [ClassAttrName]).unknown - {ClassParamName(argv)}
    ensures QueryLink(argv).page == ParseSpec(argv, [ClassAttrName]).unnamed[0]
  {
    ClassAttrOption(argv);
  }
}
