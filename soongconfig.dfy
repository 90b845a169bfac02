/**
 * Soong config variables: the canonical property name of a variable, the
 * lookup of a dotted property path in a module's property schema, the
 * pruning of that schema to the properties a config module type may
 * affect, the choice of the property sets a module's config variables
 * select, and the text of the definitions emitted for bp2build.
 */
module SoongConfig {
  import opened Wrappers
  import opened Strings

  // ---------------------------------------------------------------------
  // Property names
  // ---------------------------------------------------------------------

  /** The characters a property name keeps: ASCII letters and digits and '_'. */
  predicate IsPropertyChar(c: char) {
    IsAsciiUpper(c) || IsAsciiLower(c) || IsAsciiDigit(c) || c == '_'
  }

  function CanonicalChar(c: char): char {
    if IsPropertyChar(c) then c else '_'
  }

  /** `CanonicalizeToProperty`: every character that cannot appear in a property name becomes '_'. */
  function CanonicalizeToProperty(s: string): (r: string)
    ensures |r| == |s|
    ensures forall i :: 0 <= i < |s| ==> r[i] == CanonicalChar(s[i])
  {
    if s == [] then [] else [CanonicalChar(s[0])] + CanonicalizeToProperty(s[1..])
  }

  /**
   * The canonical name has one character per input character, all of them
   * property characters; letters, digits and '_' are kept, anything else
   * (a '-', a non-ASCII character) is one '_'; canonicalising twice is
   * canonicalising once; and a name is its own canonical form exactly when
   * it consists of property characters.
   */
  lemma CanonicalizeFacts(s: string)
    ensures var r := CanonicalizeToProperty(s);
      && |r| == |s|
      && (forall i :: 0 <= i < |r| ==> IsPropertyChar(r[i]))
      && (forall i :: 0 <= i < |s| && IsPropertyChar(s[i]) ==> r[i] == s[i])
      && (forall i :: 0 <= i < |s| && !IsPropertyChar(s[i]) ==> r[i] == '_')
      && CanonicalizeToProperty(r) == r
      && (r == s <==> forall i :: 0 <= i < |s| ==> IsPropertyChar(s[i]))
  {
    var r := CanonicalizeToProperty(s);
    var rr := CanonicalizeToProperty(r);
    assert forall i :: 0 <= i < |r| ==> rr[i] == r[i];
    if forall i :: 0 <= i < |s| ==> IsPropertyChar(s[i]) {
      assert forall i :: 0 <= i < |s| ==> r[i] == s[i];
    }
  }

  /** proptools.FieldNameForProperty: the first letter in upper case (ASCII). */
  function FieldNameForProperty(p: string): string {
    if |p| > 0 && IsAsciiLower(p[0]) then [(p[0] as int - 32) as char] + p[1..] else p
  }

  /** proptools.PropertyNameForField: the first letter in lower case (ASCII). */
  function PropertyNameForField(f: string): string {
    if |f| > 0 && IsAsciiUpper(f[0]) then [(f[0] as int + 32) as char] + f[1..] else f
  }

  /** The two conversions undo each other on exported field names and on lower-case property names. */
  lemma NameConversionsRoundTrip(f: string, p: string)
    ensures |f| > 0 && IsAsciiUpper(f[0]) ==> FieldNameForProperty(PropertyNameForField(f)) == f
    ensures |p| > 0 && IsAsciiLower(p[0]) ==> PropertyNameForField(FieldNameForProperty(p)) == p
  {
    if |f| > 0 && IsAsciiUpper(f[0]) {
      var l := PropertyNameForField(f);
      assert l[1..] == f[1..];
      assert [(l[0] as int - 32) as char] + l[1..] == f;
    }
    if |p| > 0 && IsAsciiLower(p[0]) {
      var u := FieldNameForProperty(p);
      assert u[1..] == p[1..];
      assert [(u[0] as int + 32) as char] + u[1..] == p;
    }
  }

  // ---------------------------------------------------------------------
  // Property schemas
  // ---------------------------------------------------------------------

  /** The type of a property struct's field, as Go reflection sees it. */
  datatype FieldType =
    | Scalar(typeName: string)              // string, bool, []string, ...
    | Struct(fields: FieldList)
    | Pointer(elem: FieldType)
    | Interface(dynamic: Option<FieldType>)  // interface{}: the type of the value it holds; None when nil

  /** A struct's fields in declaration order. */
  datatype FieldList = NoFields | Field(name: string, typ: FieldType, next: FieldList)

  /** The type of the first field with exactly this name. */
  function FindField(fields: FieldList, name: string): (r: Option<FieldType>)
    ensures r.None? <==> name !in Names(fields)
  {
    match fields
    case NoFields => None
    case Field(n, t, next) => if n == name then Some(t) else FindField(next, name)
  }

  /** The field names in declaration order. */
  function Names(fields: FieldList): seq<string> {
    match fields
    case NoFields => []
    case Field(n, _, next) => [n] + Names(next)
  }

  /**
   * The struct a descent continues in: through the value an interface
   * holds, then through one pointer (a nil pointer still has its element
   * type); nothing when that is not a struct or the interface is nil.
   */
  function DescendInto(t: FieldType): Option<FieldList> {
    var held := match t case Interface(d) => d case _ => Some(t);
    match held
    case None => None
    case Some(u) =>
      var v := match u case Pointer(e) => e case _ => u;
      match v
      case Struct(fs) => Some(fs)
      case _ => None
  }

  /**
   * The declared type of the field a dotted property path names, one
   * capitalised path element per struct level: nothing when a field is
   * missing or a step has to descend into something that is not a struct.
   */
  function TypeForPath(fields: FieldList, path: seq<string>): Option<FieldType>
    requires |path| >= 1
    decreases |path|
  {
    var f := FindField(fields, FieldNameForProperty(path[0]));
    if |path| == 1 then f
    else
      match f
      case None => None
      case Some(t) =>
        match DescendInto(t)
        case None => None
        case Some(fs) => TypeForPath(fs, path[1..])
  }

  /** `typeForPropertyFromPropertyStruct`, for a property struct of type `ps`. */
  function TypeForPropertyFromPropertyStruct(ps: FieldType, property: string): Option<FieldType> {
    match DescendInto(ps)
    case None => None
    case Some(fs) => TypeForPath(fs, Split(property, "."))
  }

  /** A step of a lookup sees through an interface, a pointer, or an interface holding a pointer. */
  lemma LookupSeesThroughWrappers(fields: FieldList, a: string, rest: seq<string>, inner: FieldList)
    requires |rest| >= 1
    requires FindField(fields, FieldNameForProperty(a)) in
      {Some(Struct(inner)), Some(Pointer(Struct(inner))), Some(Interface(Some(Struct(inner)))),
       Some(Interface(Some(Pointer(Struct(inner)))))}
    ensures TypeForPath(fields, [a] + rest) == TypeForPath(inner, rest)
  {
    assert ([a] + rest)[1..] == rest;
  }

  /**
   * A lookup yields nothing when a field on the path is missing, or when a
   * step descends into a scalar, a pointer to a scalar, or a nil interface.
   */
  lemma LookupFailures(fields: FieldList, a: string, rest: seq<string>)
    requires |rest| >= 1
    ensures var f := FindField(fields, FieldNameForProperty(a));
      (f.None? || f.value.Scalar? || (f.value.Pointer? && f.value.elem.Scalar?) || f.value == Interface(None))
        ==> TypeForPath(fields, [a] + rest).None?
  {
    assert ([a] + rest)[1..] == rest;
  }

  // ---------------------------------------------------------------------
  // The affectable properties type
  // ---------------------------------------------------------------------

  /** The listed properties as paths of property names. */
  function AffectablePaths(affectable: seq<string>): set<seq<string>> {
    set p | p in affectable :: Split(p, ".")
  }

  /**
   * The fields, below the property path `prefix`, that a listed property
   * names or that contain one: a listed field is kept whole, a struct field
   * keeps its pruned fields when there are any, and order and nesting are
   * kept.
   */
  function Prune(fields: FieldList, prefix: seq<string>, affectable: set<seq<string>>): FieldList
    decreases fields
  {
    match fields
    case NoFields => NoFields
    case Field(n, t, next) =>
      var path := prefix + [PropertyNameForField(n)];
      var rest := Prune(next, prefix, affectable);
      if path in affectable then Field(n, t, rest)
      else
        match t
        case Struct(sub) =>
          var inner := Prune(sub, path, affectable);
          if inner != NoFields then Field(n, Struct(inner), rest) else rest
        case _ => rest
  }

  /** `createAffectablePropertiesType` for one factory property struct: a pointer to the pruned struct, or nothing. */
  function CreateAffectablePropertiesType(affectable: seq<string>, factoryProps: FieldList): Option<FieldType> {
    var kept := Prune(factoryProps, [], AffectablePaths(affectable));
    if kept == NoFields then None else Some(Pointer(Struct(kept)))
  }

  /** Some field at or below `prefix` has a listed property path. */
  predicate AnyListed(fields: FieldList, prefix: seq<string>, affectable: set<seq<string>>)
    decreases fields
  {
    match fields
    case NoFields => false
    case Field(n, t, next) =>
      var path := prefix + [PropertyNameForField(n)];
      path in affectable || (t.Struct? && AnyListed(t.fields, path, affectable)) || AnyListed(next, prefix, affectable)
  }

  /** Pruning leaves nothing exactly when no field has a listed property path. */
  lemma {:induction false} PruneEmptyIff(fields: FieldList, prefix: seq<string>, affectable: set<seq<string>>)
    ensures Prune(fields, prefix, affectable) == NoFields <==> !AnyListed(fields, prefix, affectable)
    decreases fields
  {
    match fields
    case NoFields =>
    case Field(n, t, next) =>
      var path := prefix + [PropertyNameForField(n)];
      PruneEmptyIff(next, prefix, affectable);
      if t.Struct? {
        PruneEmptyIff(t.fields, path, affectable);
      }
  }

  /** The list declares a field named `n` of type `t`. */
  predicate HasField(fields: FieldList, n: string, t: FieldType)
    decreases fields
  {
    match fields
    case NoFields => false
    case Field(m, u, next) => (m == n && u == t) || HasField(next, n, t)
  }

  /**
   * The list declares a field named `n` that pruning below `prefix` turns
   * into type `t`: a listed field with `t` its own type, or an unlisted
   * struct with a listed property inside, whose pruned fields `t` holds.
   */
  predicate KeptFrom(fields: FieldList, n: string, t: FieldType, prefix: seq<string>, affectable: set<seq<string>>)
    decreases fields
  {
    match fields
    case NoFields => false
    case Field(m, u, next) =>
      var path := prefix + [PropertyNameForField(m)];
      (m == n && path in affectable && u == t)
      || (m == n && path !in affectable && u.Struct? && AnyListed(u.fields, path, affectable)
          && t == Struct(Prune(u.fields, path, affectable)))
      || KeptFrom(next, n, t, prefix, affectable)
  }

  /**
   * Pruning drops every field that is neither listed nor a struct holding a
   * listed property: each field it keeps comes from the schema, either
   * listed and unchanged or an unlisted struct pruned in turn.
   */
  lemma {:induction false} PruneDropsUnlisted(fields: FieldList, prefix: seq<string>, affectable: set<seq<string>>)
    ensures forall n, t :: HasField(Prune(fields, prefix, affectable), n, t) ==> KeptFrom(fields, n, t, prefix, affectable)
    decreases fields
  {
    match fields
    case NoFields =>
    case Field(m, u, next) =>
      PruneDropsUnlisted(next, prefix, affectable);
      var path := prefix + [PropertyNameForField(m)];
      var rest := Prune(next, prefix, affectable);
      var r := Prune(fields, prefix, affectable);
      if path in affectable {
        assert r == Field(m, u, rest);
      } else if u.Struct? && Prune(u.fields, path, affectable) != NoFields {
        PruneEmptyIff(u.fields, path, affectable);
        assert r == Field(m, Struct(Prune(u.fields, path, affectable)), rest);
      } else {
        assert r == rest;
      }
  }

  /** `a` is `b` with some elements left out. */
  predicate IsSubsequence(a: seq<string>, b: seq<string>)
    decreases |b|
  {
    if a == [] then true
    else if b == [] then false
    else if a[0] == b[0] then IsSubsequence(a[1..], b[1..])
    else IsSubsequence(a, b[1..])
  }

  /** A subsequence stays one when an element is put in front. */
  lemma {:induction false} SubsequenceSkip(a: seq<string>, b: seq<string>, x: string)
    requires IsSubsequence(a, b)
    ensures IsSubsequence(a, [x] + b)
    decreases |b|, 1
  {
    assert ([x] + b)[1..] == b;
    if a != [] && a[0] == x {
      SubsequenceDrop(a, b);
    }
  }

  /** A subsequence without its first element is still one. */
  lemma {:induction false} SubsequenceDrop(a: seq<string>, b: seq<string>)
    requires a != [] && IsSubsequence(a, b)
    ensures IsSubsequence(a[1..], b)
    decreases |b|, 0
  {
    assert b != [] && [b[0]] + b[1..] == b;
    if a[0] == b[0] {
      SubsequenceSkip(a[1..], b[1..], b[0]);
    } else {
      SubsequenceDrop(a, b[1..]);
      SubsequenceSkip(a[1..], b[1..], b[0]);
    }
  }

  /** Pruning keeps the remaining fields in declaration order. */
  lemma {:induction false} PruneKeepsOrder(fields: FieldList, prefix: seq<string>, affectable: set<seq<string>>)
    ensures IsSubsequence(Names(Prune(fields, prefix, affectable)), Names(fields))
    decreases fields
  {
    match fields
    case NoFields =>
    case Field(n, t, next) =>
      PruneKeepsOrder(next, prefix, affectable);
      var rest := Prune(next, prefix, affectable);
      assert ([n] + Names(next))[1..] == Names(next);
      if Prune(fields, prefix, affectable) == rest {
        SubsequenceSkip(Names(rest), Names(next), n);
      } else {
        assert Names(Prune(fields, prefix, affectable)) == [n] + Names(rest);
      }
  }

  /**
   * The field a path of property names leads to through directly nested
   * structs, taking the first field of each name.
   */
  function FieldAt(fields: FieldList, path: seq<string>): Option<FieldType>
    requires |path| >= 1
    decreases |path|
  {
    match FindProperty(fields, path[0])
    case None => None
    case Some(t) =>
      if |path| == 1 then Some(t)
      else if t.Struct? then FieldAt(t.fields, path[1..])
      else None
  }

  /** The type of the first field whose property name is `p`. */
  function FindProperty(fields: FieldList, p: string): Option<FieldType> {
    match fields
    case NoFields => None
    case Field(n, t, next) => if PropertyNameForField(n) == p then Some(t) else FindProperty(next, p)
  }

  /**
   * A listed property of the schema is still there, with the same type,
   * after pruning below `prefix`.
   */
  lemma {:induction false} PruneKeepsListed(fields: FieldList, prefix: seq<string>, path: seq<string>, affectable: set<seq<string>>)
    requires |path| >= 1 && prefix + path in affectable && FieldAt(fields, path).Some?
    ensures FieldAt(Prune(fields, prefix, affectable), path) == FieldAt(fields, path)
    decreases fields, |path|
  {
    match fields
    case NoFields =>
    case Field(n, t, next) =>
      var name := PropertyNameForField(n);
      var here := prefix + [name];
      var pruned := Prune(fields, prefix, affectable);
      if name == path[0] {
        if here in affectable {
          assert pruned == Field(n, t, Prune(next, prefix, affectable));
        } else {
          assert FindProperty(fields, path[0]) == Some(t);
          assert |path| == 1 ==> prefix + path == here;
          assert |path| > 1 && t.Struct?;
          assert here + path[1..] == prefix + path;
          PruneKeepsListed(t.fields, here, path[1..], affectable);
          var inner := Prune(t.fields, here, affectable);
          assert inner != NoFields;
          assert pruned == Field(n, Struct(inner), Prune(next, prefix, affectable));
        }
      } else {
        PruneKeepsListed(next, prefix, path, affectable);
        PruneSkipsOtherNames(fields, prefix, path[0], affectable);
        FieldAtSameHead(pruned, Prune(next, prefix, affectable), path);
        FieldAtSameHead(fields, next, path);
      }
  }

  /** Pruning a list whose head has another property name finds the same first field for `p`. */
  lemma PruneSkipsOtherNames(fields: FieldList, prefix: seq<string>, p: string, affectable: set<seq<string>>)
    requires fields.Field? && PropertyNameForField(fields.name) != p
    ensures FindProperty(Prune(fields, prefix, affectable), p) == FindProperty(Prune(fields.next, prefix, affectable), p)
  {
  }

  /** Two field lists with the same first field for the path's head lead to the same place. */
  lemma FieldAtSameHead(a: FieldList, b: FieldList, path: seq<string>)
    requires |path| >= 1 && FindProperty(a, path[0]) == FindProperty(b, path[0])
    ensures FieldAt(a, path) == FieldAt(b, path)
  {
  }

  /**
   * The affectable properties type is missing exactly when no property of the
   * factory struct is listed; otherwise it points to a struct that keeps every
   * listed property with its type and keeps no field that is neither listed
   * nor a struct holding a listed property.
   */
  lemma CreateAffectableTypeFacts(affectable: seq<string>, factoryProps: FieldList)
    ensures var r := CreateAffectablePropertiesType(affectable, factoryProps);
      var a := AffectablePaths(affectable);
      && (r.None? <==> !AnyListed(factoryProps, [], a))
      && (r.Some? ==>
            && r.value.Pointer? && r.value.elem.Struct?
            && (forall n, t :: HasField(r.value.elem.fields, n, t) ==> KeptFrom(factoryProps, n, t, [], a))
            && (forall path :: |path| >= 1 && path in a && FieldAt(factoryProps, path).Some? ==>
                  FieldAt(r.value.elem.fields, path) == FieldAt(factoryProps, path)))
  {
    var a := AffectablePaths(affectable);
    var kept := Prune(factoryProps, [], a);
    PruneEmptyIff(factoryProps, [], a);
    PruneDropsUnlisted(factoryProps, [], a);
    forall path | |path| >= 1 && path in a && FieldAt(factoryProps, path).Some?
      ensures FieldAt(kept, path) == FieldAt(factoryProps, path)
    {
      assert [] + path == path;
      PruneKeepsListed(factoryProps, [], path, a);
    }
  }

  /** Go's reflect.Type.String for the modelled types. */
  function TypeString(t: FieldType): string
    decreases t
  {
    match t
    case Scalar(n) => n
    case Struct(fs) => if fs == NoFields then "struct {}" else "struct { " + FieldsString(fs) + " }"
    case Pointer(e) => "*" + TypeString(e)
    case Interface(_) => "interface {}"
  }

  function FieldsString(fs: FieldList): string
    decreases fs
  {
    match fs
    case NoFields => ""
    case Field(n, t, next) =>
      n + " " + TypeString(t) + (if next == NoFields then "" else "; " + FieldsString(next))
  }

  // ---------------------------------------------------------------------
  // Selecting property sets
  // ---------------------------------------------------------------------

  /** A config variable of a module type. */
  datatype SoongConfigVariable = BoolVariable(name: string) | StringVariable(name: string, values: seq<string>)

  /**
   * What a module sets under one variable: a bool variable's properties,
   * a string variable's properties per value, and `conditions_default`.
   */
  datatype VariableProps<P> = VariableProps(own: Option<P>, byValue: map<string, P>, conditionsDefault: Option<P>)

  type SoongConfigValues = map<string, string>

  /** A bool variable is true when it is set to "y". */
  predicate ConfigBool(config: SoongConfigValues, name: string) {
    name in config && config[name] == "y"
  }

  /** A string variable's value, "" when unset. */
  function ConfigString(config: SoongConfigValues, name: string): string {
    if name in config then config[name] else ""
  }

  /** The error for a string variable set to a value it does not declare. */
  function StringValueError(name: string, values: seq<string>, value: string): string {
    "Soong config property \"" + name + "\" must be one of [" + Join(values, " ") + "], found \"" + value + "\""
  }

  /** The property set one variable selects, if any. */
  function SelectFor<P>(v: SoongConfigVariable, props: Option<VariableProps<P>>, config: SoongConfigValues): (r: Result<Option<P>, string>)
    ensures v.BoolVariable? ==> r.Success?
    ensures v.BoolVariable? && props.Some? ==>
      r.value == (if ConfigBool(config, v.name) then props.value.own else props.value.conditionsDefault)
    ensures v.StringVariable? ==>
      (r.Failure? <==> ConfigString(config, v.name) != "" && ConfigString(config, v.name) !in v.values)
    ensures v.StringVariable? && r.Failure? ==> r.error == StringValueError(v.name, v.values, ConfigString(config, v.name))
    ensures props.None? && r.Success? ==> r.value.None?
  {
    match v
    case BoolVariable(name) =>
      (match props
       case None => Success(None)
       case Some(p) => Success(if ConfigBool(config, name) then p.own else p.conditionsDefault))
    case StringVariable(name, values) =>
      var value := ConfigString(config, name);
      if value != "" && value !in values then Failure(StringValueError(name, values, value))
      else
        match props
        case None => Success(None)
        case Some(p) => Success(if value != "" && value in p.byValue then Some(p.byValue[value]) else p.conditionsDefault)
  }

  function PropsOf<P>(props: map<string, VariableProps<P>>, name: string): Option<VariableProps<P>> {
    if name in props then Some(props[name]) else None
  }

  /** `PropertiesToApply`: the selected property sets in variable order; the first error stops it. */
  function PropertiesToApply<P>(vars: seq<SoongConfigVariable>, props: map<string, VariableProps<P>>, config: SoongConfigValues): (r: Result<seq<P>, string>)
    ensures r.Success? ==> |r.value| <= |vars|
  {
    if vars == [] then Success([])
    else
      match SelectFor(vars[0], PropsOf(props, vars[0].name), config)
      case Failure(e) => Failure(e)
      case Success(sel) =>
        match PropertiesToApply(vars[1..], props, config)
        case Failure(e) => Failure(e)
        case Success(rest) => Success((if sel.Some? then [sel.value] else []) + rest)
  }

  /** A string variable set to a value outside its declared list. */
  predicate BadValue(v: SoongConfigVariable, config: SoongConfigValues) {
    v.StringVariable? && ConfigString(config, v.name) != "" && ConfigString(config, v.name) !in v.values
  }

  /** Variable `i` is the first with an undeclared value. */
  predicate FirstBad(vars: seq<SoongConfigVariable>, i: int, config: SoongConfigValues) {
    0 <= i < |vars| && BadValue(vars[i], config) && forall j :: 0 <= j < i ==> !BadValue(vars[j], config)
  }

  /**
   * Selection fails exactly when some string variable has an undeclared
   * value, and the error is the one for the first such variable.
   */
  lemma {:induction false} PropertiesToApplyFails<P>(vars: seq<SoongConfigVariable>, props: map<string, VariableProps<P>>, config: SoongConfigValues)
    ensures var r := PropertiesToApply(vars, props, config);
      && (r.Failure? <==> exists i :: 0 <= i < |vars| && BadValue(vars[i], config))
      && (r.Failure? ==>
            exists i :: FirstBad(vars, i, config)
              && r.error == StringValueError(vars[i].name, vars[i].values, ConfigString(config, vars[i].name)))
  {
    if vars != [] {
      PropertiesToApplyFails(vars[1..], props, config);
      var r := PropertiesToApply(vars, props, config);
      if BadValue(vars[0], config) {
        assert r.Failure?;
      } else {
        forall i | 1 <= i < |vars| ensures vars[i] == vars[1..][i - 1] {}
        if r.Failure? {
          var rest := PropertiesToApply(vars[1..], props, config);
          assert rest.Failure?;
          var i :| FirstBad(vars[1..], i, config)
            && rest.error == StringValueError(vars[1..][i].name, vars[1..][i].values, ConfigString(config, vars[1..][i].name));
          assert FirstBad(vars, i + 1, config);
        } else {
          assert forall i :: 1 <= i < |vars| ==> !BadValue(vars[i], config);
        }
      }
    }
  }

  /**
   * A bool variable selects its own properties when set to "y", and
   * `conditions_default` when unset or set to anything else.
   */
  lemma BoolVariableSelects<P>(name: string, p: VariableProps<P>, config: SoongConfigValues)
    ensures var sel := if ConfigBool(config, name) then p.own else p.conditionsDefault;
      PropertiesToApply([BoolVariable(name)], map[name := p], config) == Success(if sel.Some? then [sel.value] else [])
    ensures name !in config || config[name] == "n" ==>
      PropertiesToApply([BoolVariable(name)], map[name := p], config) == Success(if p.conditionsDefault.Some? then [p.conditionsDefault.value] else [])
  {
    assert [BoolVariable(name)][1..] == [];
    assert PropsOf(map[name := p], name) == Some(p);
    assert name !in config || config[name] == "n" ==> !ConfigBool(config, name);
    var sel := if ConfigBool(config, name) then p.own else p.conditionsDefault;
    var one: seq<P> := if sel.Some? then [sel.value] else [];
    assert one + [] == one;
  }

  // ---------------------------------------------------------------------
  // Definitions for bp2build
  // ---------------------------------------------------------------------

  /** Lexicographic order of strings by code point (Go compares UTF-8 bytes, which agrees). */
  predicate Less(a: string, b: string)
    decreases |a|
  {
    if a == [] then b != []
    else b != [] && (a[0] < b[0] || (a[0] == b[0] && Less(a[1..], b[1..])))
  }

  lemma {:induction false} LessIrreflexive(a: string)
    ensures !Less(a, a)
    decreases |a|
  {
    if a != [] {
      LessIrreflexive(a[1..]);
    }
  }

  lemma {:induction false} LessTransitive(a: string, b: string, c: string)
    requires Less(a, b) && Less(b, c)
    ensures Less(a, c)
    decreases |a|
  {
    if a != [] && a[0] == b[0] && b[0] == c[0] {
      LessTransitive(a[1..], b[1..], c[1..]);
    }
  }

  lemma {:induction false} LessTotal(a: string, b: string)
    requires a != b
    ensures Less(a, b) || Less(b, a)
    decreases |a|
  {
    if a != [] && b != [] && a[0] == b[0] {
      assert a == [a[0]] + a[1..] && b == [b[0]] + b[1..];
      LessTotal(a[1..], b[1..]);
    }
  }

  lemma LessAsymmetric(a: string, b: string)
    requires Less(a, b)
    ensures !Less(b, a)
  {
    if Less(b, a) {
      LessTransitive(a, b, a);
      LessIrreflexive(a);
    }
  }

  /** Strictly ascending. */
  predicate Sorted(s: seq<string>) {
    forall i, j :: 0 <= i < j < |s| ==> Less(s[i], s[j])
  }

  /** No element occurs twice. */
  predicate Distinct(s: seq<string>) {
    forall i, j :: 0 <= i < j < |s| ==> s[i] != s[j]
  }

  /** Inserts `x` into an ascending sequence. */
  function Insert(x: string, s: seq<string>): (r: seq<string>)
    ensures |r| == |s| + 1
    ensures forall y :: y in r <==> y == x || y in s
    ensures Sorted(s) && x !in s ==> Sorted(r)
  {
    if s == [] then [x]
    else if Less(x, s[0]) then
      assert Sorted(s) ==> Sorted([x] + s) by {
        if Sorted(s) {
          forall j | 0 < j < |s| ensures Less(x, s[j]) {
            LessTransitive(x, s[0], s[j]);
          }
        }
      }
      [x] + s
    else
      var rest := Insert(x, s[1..]);
      assert Sorted(s) && x !in s ==> Sorted([s[0]] + rest) by {
        if Sorted(s) && x !in s {
          LessTotal(x, s[0]);
          assert forall y :: y in s[1..] ==> Less(s[0], y);
        }
      }
      [s[0]] + rest
  }

  /** Go's sort.Strings over the keys, as an insertion sort. */
  function SortStrings(s: seq<string>): (r: seq<string>)
    ensures |r| == |s|
    ensures forall y :: y in r <==> y in s
    ensures Distinct(s) ==> Sorted(r)
  {
    if s == [] then []
    else
      var rest := SortStrings(s[1..]);
      assert Distinct(s) ==> Distinct(s[1..]) && s[0] !in s[1..];
      Insert(s[0], rest)
  }

  /** Two ascending sequences with the same elements are equal. */
  lemma {:induction false} SortedUnique(a: seq<string>, b: seq<string>)
    requires Sorted(a) && Sorted(b)
    requires forall y :: y in a <==> y in b
    ensures a == b
    decreases |a|
  {
    if b != [] {
      assert b[0] in b;
    }
    if a != [] {
      assert a[0] in a;
      assert b != [] by { assert a[0] in b; }
      assert b[0] in b;
      if a[0] != b[0] {
        var j :| 0 <= j < |a| && a[j] == b[0];
        var k :| 0 <= k < |b| && b[k] == a[0];
        assert j > 0 && k > 0;
        LessAsymmetric(a[0], b[0]);
      }
      forall y ensures y in a[1..] <==> y in b[1..] {
        if y in a[1..] {
          var j :| 1 <= j < |a| && a[j] == y;
          LessIrreflexive(a[0]);
          assert y in b && y != b[0];
          var k :| 0 <= k < |b| && b[k] == y;
          assert b[1..][k - 1] == y;
        }
        if y in b[1..] {
          var j :| 1 <= j < |b| && b[j] == y;
          LessIrreflexive(b[0]);
          assert y in a && y != a[0];
          var k :| 0 <= k < |a| && a[k] == y;
          assert a[1..][k - 1] == y;
        }
      }
      SortedUnique(a[1..], b[1..]);
      assert a == [a[0]] + a[1..] && b == [b[0]] + b[1..];
    }
  }

  /** `order` lists the keys of `m`, each once: one iteration order of a Go map. */
  ghost predicate Enumerates<V>(order: seq<string>, m: map<string, V>) {
    Distinct(order) && forall k :: k in order <==> k in m
  }

  /** The bp2build definitions of a build's Soong config variables. */
  datatype Bp2BuildSoongConfigDefinitions = Bp2BuildSoongConfigDefinitions(
    boolVars: map<string, bool>,
    valueVars: map<string, bool>,
    stringVars: map<string, seq<string>>)

  function Quoted(s: string): string { "\"" + s + "\"" }

  function PrintBool(b: bool): string { if b then "True" else "False" }

  /** A Starlark dict of already formatted items: `{}` when empty, else one item per line. */
  function PrintDict(items: seq<string>): string {
    if items == [] then "{}" else "{\n    " + Join(items, ",\n    ") + ",\n}"
  }

  /** A Starlark list of strings nested one level deep, one element per line. */
  function PrintStringList(values: seq<string>): string {
    if values == [] then "[]"
    else "[\n        " + Join(QuotedAll(values), ",\n        ") + ",\n    ]"
  }

  function QuotedAll(values: seq<string>): (r: seq<string>)
    ensures |r| == |values|
  {
    if values == [] then [] else [Quoted(values[0])] + QuotedAll(values[1..])
  }

  function BoolItems(m: map<string, bool>, keys: seq<string>): seq<string>
    requires forall k :: k in keys ==> k in m
  {
    if keys == [] then [] else [Quoted(keys[0]) + ": " + PrintBool(m[keys[0]])] + BoolItems(m, keys[1..])
  }

  function StringListItems(m: map<string, seq<string>>, keys: seq<string>): seq<string>
    requires forall k :: k in keys ==> k in m
  {
    if keys == [] then [] else [Quoted(keys[0]) + ": " + PrintStringList(m[keys[0]])] + StringListItems(m, keys[1..])
  }

  /** A bool dict, its keys in ascending order whatever order the map was iterated in. */
  function PrintBoolDict(m: map<string, bool>, order: seq<string>): string
    requires Enumerates(order, m)
  {
    PrintDict(BoolItems(m, SortStrings(order)))
  }

  function PrintStringListDict(m: map<string, seq<string>>, order: seq<string>): string
    requires Enumerates(order, m)
  {
    PrintDict(StringListItems(m, SortStrings(order)))
  }

  /**
   * `Bp2BuildSoongConfigDefinitions.String`: the bool, value and string
   * variable sections, in that order, separated by blank lines; the orders
   * are the ones in which the three maps were iterated.
   */
  function DefinitionsString(d: Bp2BuildSoongConfigDefinitions, boolOrder: seq<string>, valueOrder: seq<string>, stringOrder: seq<string>): string
    requires Enumerates(boolOrder, d.boolVars) && Enumerates(valueOrder, d.valueVars) && Enumerates(stringOrder, d.stringVars)
  {
    "soong_config_bool_variables = " + PrintBoolDict(d.boolVars, boolOrder) + "\n\n"
    + "soong_config_value_variables = " + PrintBoolDict(d.valueVars, valueOrder) + "\n\n"
    + "soong_config_string_variables = " + PrintStringListDict(d.stringVars, stringOrder)
  }

  /** Every iteration order of the three maps gives the same text. */
  lemma DefinitionsDeterministic(d: Bp2BuildSoongConfigDefinitions,
                                 b1: seq<string>, v1: seq<string>, s1: seq<string>,
                                 b2: seq<string>, v2: seq<string>, s2: seq<string>)
    requires Enumerates(b1, d.boolVars) && Enumerates(v1, d.valueVars) && Enumerates(s1, d.stringVars)
    requires Enumerates(b2, d.boolVars) && Enumerates(v2, d.valueVars) && Enumerates(s2, d.stringVars)
    ensures DefinitionsString(d, b1, v1, s1) == DefinitionsString(d, b2, v2, s2)
  {
    SortedUnique(SortStrings(b1), SortStrings(b2));
    SortedUnique(SortStrings(v1), SortStrings(v2));
    SortedUnique(SortStrings(s1), SortStrings(s2));
  }

  /** The entries of a dict appear in ascending key order. */
  lemma BoolItemsAscending(m: map<string, bool>, order: seq<string>)
    requires Enumerates(order, m)
    ensures var keys := SortStrings(order);
      && Sorted(keys) && |keys| == |m|
      && (forall k :: k in keys <==> k in m)
      && BoolItems(m, keys) == seq(|keys|, i requires 0 <= i < |keys| => Quoted(keys[i]) + ": " + PrintBool(m[keys[i]]))
  {
    var keys := SortStrings(order);
    assert |keys| == |m| by {
      DistinctCount(order, m);
    }
    BoolItemsIndexed(m, keys);
  }

  lemma {:induction false} BoolItemsIndexed(m: map<string, bool>, keys: seq<string>)
    requires forall k :: k in keys ==> k in m
    ensures BoolItems(m, keys) == seq(|keys|, i requires 0 <= i < |keys| => Quoted(keys[i]) + ": " + PrintBool(m[keys[i]]))
  {
    if keys != [] {
      BoolItemsIndexed(m, keys[1..]);
    }
  }

  /** A map iterated without repeats has as many keys as the iteration has steps. */
  lemma DistinctCount<V>(order: seq<string>, m: map<string, V>)
    requires Enumerates(order, m)
    ensures |order| == |m|
  {
    var ks := set k | k in order;
    assert ks == m.Keys;
    DistinctSetSize(order);
  }

  lemma {:induction false} DistinctSetSize(s: seq<string>)
    requires Distinct(s)
    ensures |set k | k in s| == |s|
  {
    if s != [] {
      DistinctSetSize(s[1..]);
      assert (set k | k in s) == (set k | k in s[1..]) + {s[0]};
      assert s[0] !in (set k | k in s[1..]);
    }
  }

  /** A dict prints as `{}` exactly when it has no keys. */
  lemma EmptyDictIff(bools: map<string, bool>, boolOrder: seq<string>, lists: map<string, seq<string>>, listOrder: seq<string>)
    requires Enumerates(boolOrder, bools) && Enumerates(listOrder, lists)
    ensures PrintBoolDict(bools, boolOrder) == "{}" <==> |bools| == 0
    ensures PrintStringListDict(lists, listOrder) == "{}" <==> |lists| == 0
  {
    DistinctCount(boolOrder, bools);
    DistinctCount(listOrder, lists);
    var b := SortStrings(boolOrder);
    var l := SortStrings(listOrder);
    if b != [] {
      var t := PrintBoolDict(bools, boolOrder);
      assert t[1] == '\n';
    }
    if l != [] {
      var t := PrintStringListDict(lists, listOrder);
      assert t[1] == '\n';
    }
  }

  /** A single bool variable prints on its own line, quoted, as `True`. */
  lemma OneBoolVariable(name: string)
    ensures PrintBoolDict(map[name := true], [name]) == "{\n    \"" + name + "\": True,\n}"
  {
    assert SortStrings([name]) == [name];
    assert [name][1..] == [];
    assert BoolItems(map[name := true], [name]) == [Quoted(name) + ": " + "True"];
    assert Join([Quoted(name) + ": " + "True"], ",\n    ") == Quoted(name) + ": " + "True";
    assert ": " + "True" == ": True";
    assert "{\n    " + "\"" == "{\n    \"";
    assert "\"" + ": True" + ",\n}" == "\": True,\n}";
  }
}
