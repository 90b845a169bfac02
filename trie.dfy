/**
 * The hidden-API signature trie: a parser that splits a JVM member signature
 * into typed elements, and a trie that stores a value under the element path
 * of each member signature and answers package, class and member queries.
 */
module SignatureTrie {
  import opened Wrappers
  import opened Strings

  // ---------------------------------------------------------------------
  // Signatures and their elements
  // ---------------------------------------------------------------------

  /** The ways a signature or pattern is rejected by the parser. */
  datatype SignatureError =
    | InvalidWildcard(signature: string, wildcard: string)
    | WildcardWithMember(signature: string, wildcard: string, member: string)
    | LowerCaseLastElement(signature: string, element: string)

  /** The text of the exception raised for `e`. */
  function SignatureMessage(e: SignatureError): string {
    match e
    case InvalidWildcard(s, w) => "Invalid signature '" + s + "': invalid wildcard '" + w + "'"
    case WildcardWithMember(s, w, m) =>
      "Invalid signature '" + s + "': contains wildcard '" + w + "' and member signature '" + m + "'"
    case LowerCaseLastElement(s, l) =>
      "Invalid signature '" + s + "': last element '" + l
      + "' is lower case but should be an upper case class name or wildcard"
  }

  /** The four groups of a parsed signature, before they are tagged with their types. */
  datatype Parsed = Parsed(packages: seq<string>, classes: seq<string>, members: seq<string>, wildcards: seq<string>)

  /** Each of `xs` prefixed with `kind` and a colon. */
  function Tagged(kind: string, xs: seq<string>): seq<string> {
    seq(|xs|, i requires 0 <= i < |xs| => kind + ":" + xs[i])
  }

  /** The element list: packages, then classes, then members, then the wildcard. */
  function Elements(p: Parsed): seq<string> {
    Tagged("package", p.packages) + Tagged("class", p.classes)
    + Tagged("member", p.members) + Tagged("wildcard", p.wildcards)
  }

  /**
   * Splits a signature or pattern into its groups. A leading "L" is dropped,
   * the text is split at ";->" (every later part is a member), the first part
   * is split at "/", and the last of those decides: a wildcard, a rejected
   * lower-case name, or the class names split at "$".
   */
  function Parse(signature: string): (r: Result<Parsed, SignatureError>)
    ensures r.Success? ==> forall i :: 0 <= i < |r.value.packages| ==> !Contains(r.value.packages[i], "/")
    ensures r.Success? ==>
      (r.value.wildcards == [] && |r.value.classes| >= 1)
      || (r.value.classes == [] && r.value.members == [] && (r.value.wildcards == ["*"] || r.value.wildcards == ["**"]))
  {
    var text := RemovePrefix(signature, "L");
    var parts := Split(text, ";->");
    var member := parts[1..];
    var elements := Split(parts[0], "/");
    var last := elements[|elements| - 1];
    if Contains(last, "*") then
      if last != "*" && last != "**" then Failure(InvalidWildcard(signature, last))
      else if |member| > 0 then Failure(WildcardWithMember(signature, last, member[0]))
      else Success(Parsed(elements[..|elements| - 1], [], [], [last]))
    else if IsLower(last) then Failure(LowerCaseLastElement(signature, last))
    else Success(Parsed(elements[..|elements| - 1], Split(RemoveSuffix(last, ";"), "$"), member, []))
  }

  /** The two halves of an element, split at its first colon. */
  function SplitElement(element: string): (r: (string, string))
    requires Contains(element, ":")
    ensures element == r.0 + ":" + r.1 && !Contains(r.0, ":")
  {
    var i := Find(element, ":").value;
    assert element == element[..i] + ":" + element[i + 1..] by {
      assert element[i..i + 1] == ":";
    }
    PrefixBeforeFind(element, ":");
    (element[..i], element[i + 1..])
  }

  /** The type of an element: "package", "class", "member" or "wildcard". */
  function ElementType(element: string): string
    requires Contains(element, ":")
  {
    SplitElement(element).0
  }

  /** Splitting `kind:value` gives `kind` and `value` back, for a colon-free kind. */
  lemma SplitElementRoundTrip(kind: string, value: string)
    requires !Contains(kind, ":")
    ensures Contains(kind + ":" + value, ":")
    ensures SplitElement(kind + ":" + value) == (kind, value)
  {
    FindAfter(kind, ":", value);
    var r := SplitElement(kind + ":" + value);
    assert |r.0| == |kind|;
    assert r.0 == (kind + ":" + value)[..|kind|];
  }

  /** The order in which element types appear in an element list. */
  function KindRank(kind: string): nat {
    if kind == "package" then 0 else if kind == "class" then 1 else if kind == "member" then 2 else 3
  }

  /** Every element of `xs` is typed, and its type is the kind at the same position of `ks`. */
  predicate TypesMatch(xs: seq<string>, ks: seq<string>) {
    |xs| == |ks| && forall i :: 0 <= i < |xs| ==> Contains(xs[i], ":") && ElementType(xs[i]) == ks[i]
  }

  lemma TaggedTypes(kind: string, xs: seq<string>)
    requires Free(kind, ':')
    ensures TypesMatch(Tagged(kind, xs), seq(|xs|, _ => kind))
  {
    FreeNotContains(kind, ":");
    forall i | 0 <= i < |xs|
      ensures Contains(Tagged(kind, xs)[i], ":") && ElementType(Tagged(kind, xs)[i]) == kind
    {
      SplitElementRoundTrip(kind, xs[i]);
    }
  }

  lemma TypesMatchConcat(x1: seq<string>, k1: seq<string>, x2: seq<string>, k2: seq<string>)
    requires TypesMatch(x1, k1) && TypesMatch(x2, k2)
    ensures TypesMatch(x1 + x2, k1 + k2)
  {
    forall i | 0 <= i < |x1 + x2| ensures Contains((x1 + x2)[i], ":") && ElementType((x1 + x2)[i]) == (k1 + k2)[i] {
      if i < |x1| {
        assert (x1 + x2)[i] == x1[i] && (k1 + k2)[i] == k1[i];
      } else {
        assert (x1 + x2)[i] == x2[i - |x1|] && (k1 + k2)[i] == k2[i - |x1|];
      }
    }
  }

  /** The element types of `Elements(p)`, position by position. */
  function Kinds(p: Parsed): seq<string> {
    seq(|p.packages|, _ => "package") + seq(|p.classes|, _ => "class")
    + seq(|p.members|, _ => "member") + seq(|p.wildcards|, _ => "wildcard")
  }

  lemma ElementKinds(p: Parsed)
    ensures |Elements(p)| == |Kinds(p)|
    ensures forall i :: 0 <= i < |Elements(p)| ==> Contains(Elements(p)[i], ":") && ElementType(Elements(p)[i]) == Kinds(p)[i]
  {
    var a, b, c, d := Tagged("package", p.packages), Tagged("class", p.classes),
      Tagged("member", p.members), Tagged("wildcard", p.wildcards);
    var ka, kb, kc, kd := seq(|p.packages|, _ => "package"), seq(|p.classes|, _ => "class"),
      seq(|p.members|, _ => "member"), seq(|p.wildcards|, _ => "wildcard");
    TaggedTypes("package", p.packages);
    TaggedTypes("class", p.classes);
    TaggedTypes("member", p.members);
    TaggedTypes("wildcard", p.wildcards);
    TypesMatchConcat(a, ka, b, kb);
    TypesMatchConcat(a + b, ka + kb, c, kc);
    TypesMatchConcat(a + b + c, ka + kb + kc, d, kd);
    assert Elements(p) == a + b + c + d;
    assert Kinds(p) == ka + kb + kc + kd;
  }

  /** A parse result as `Parse` produces it: classes without a wildcard, or a lone wildcard. */
  predicate WellShaped(p: Parsed) {
    (p.wildcards == [] && |p.classes| >= 1)
    || (p.classes == [] && p.members == [] && (p.wildcards == ["*"] || p.wildcards == ["**"]))
  }

  lemma KindsOrdered(p: Parsed)
    ensures forall i, j :: 0 <= i < j < |Kinds(p)| ==> KindRank(Kinds(p)[i]) <= KindRank(Kinds(p)[j])
  {
    var a, b, c := |p.packages|, |p.packages| + |p.classes|, |p.packages| + |p.classes| + |p.members|;
    var ks := Kinds(p);
    assert forall i :: 0 <= i < |ks| ==> KindRank(ks[i]) == (if i < a then 0 else if i < b then 1 else if i < c then 2 else 3);
  }

  /** A wildcard element of a well-shaped parse is its last element and follows packages only. */
  lemma WildcardIsLast(p: Parsed, i: nat)
    requires WellShaped(p) && i < |Elements(p)|
    requires Contains(Elements(p)[i], ":") && ElementType(Elements(p)[i]) == Kinds(p)[i]
    requires Kinds(p)[i] == "wildcard"
    ensures i == |Elements(p)| - 1 && (Elements(p)[i] == "wildcard:*" || Elements(p)[i] == "wildcard:**")
    ensures forall j :: 0 <= j < i ==> Kinds(p)[j] == "package"
  {
    assert p.classes == [] && p.members == [] && |p.wildcards| == 1;
    assert Elements(p)[i] == "wildcard:" + p.wildcards[0];
  }

  lemma ElementsShape(p: Parsed)
    requires WellShaped(p)
    ensures |Elements(p)| >= 1
    ensures forall i :: 0 <= i < |Elements(p)| ==> Contains(Elements(p)[i], ":")
    ensures forall i, j :: 0 <= i < j < |Elements(p)| ==>
      KindRank(ElementType(Elements(p)[i])) <= KindRank(ElementType(Elements(p)[j]))
    ensures forall i :: 0 <= i < |Elements(p)| && ElementType(Elements(p)[i]) == "wildcard" ==>
      i == |Elements(p)| - 1 && (Elements(p)[i] == "wildcard:*" || Elements(p)[i] == "wildcard:**")
      && forall j :: 0 <= j < i ==> ElementType(Elements(p)[j]) == "package"
  {
    ElementKinds(p);
    KindsOrdered(p);
    forall i | 0 <= i < |Elements(p)| && ElementType(Elements(p)[i]) == "wildcard"
      ensures i == |Elements(p)| - 1 && (Elements(p)[i] == "wildcard:*" || Elements(p)[i] == "wildcard:**")
      && forall j :: 0 <= j < i ==> ElementType(Elements(p)[j]) == "package"
    {
      WildcardIsLast(p, i);
    }
  }

  /**
   * The element list of a signature: never empty, every element typed, the
   * types in the order package, class, member, wildcard, and a wildcard only
   * as the last element, after packages alone.
   */
  function SignatureToElements(signature: string): (r: Result<seq<string>, SignatureError>)
    ensures r.Success? ==> |r.value| >= 1
    ensures r.Success? ==> forall i :: 0 <= i < |r.value| ==> Contains(r.value[i], ":")
    ensures r.Success? ==> forall i, j :: 0 <= i < j < |r.value| ==>
      KindRank(ElementType(r.value[i])) <= KindRank(ElementType(r.value[j]))
    ensures r.Success? ==> forall i :: 0 <= i < |r.value| && ElementType(r.value[i]) == "wildcard" ==>
      i == |r.value| - 1 && (r.value[i] == "wildcard:*" || r.value[i] == "wildcard:**")
      && forall j :: 0 <= j < i ==> ElementType(r.value[j]) == "package"
    ensures r.Failure? <==> Parse(signature).Failure?
    ensures r.Failure? ==> r.error == Parse(signature).error
  {
    match Parse(signature)
    case Failure(e) => Failure(e)
    case Success(p) =>
      ElementsShape(p);
      Success(Elements(p))
  }

  // ---------------------------------------------------------------------
  // What the parser does with signatures built from their parts
  // ---------------------------------------------------------------------

  /** No package or class name holds a path separator or a semicolon. */
  predicate PlainNames(xs: seq<string>) {
    forall i :: 0 <= i < |xs| ==> Free(xs[i], '/') && Free(xs[i], ';')
  }

  /** A member holds no ";->", the separator between a class and its members. */
  predicate PlainMember(m: string) {
    !Contains(m, ";->")
  }

  /** The signature text with packages `ps`, last path element `last` and members `ms`. */
  function Build(ps: seq<string>, last: string, ms: seq<string>): string {
    "L" + Join([Join(ps + [last], "/")] + ms, ";->")
  }

  /** The two splits of `Parse`, on a built signature, give its parts back. */
  lemma SplitsOfBuild(ps: seq<string>, last: string, ms: seq<string>)
    requires PlainNames(ps + [last])
    requires forall i :: 0 <= i < |ms| ==> PlainMember(ms[i])
    ensures Split(RemovePrefix(Build(ps, last, ms), "L"), ";->") == [Join(ps + [last], "/")] + ms
    ensures Split(Join(ps + [last], "/"), "/") == ps + [last]
  {
    var names := ps + [last];
    var head := Join(names, "/");
    JoinFree(names, "/", ';');
    FreeNotContains(head, ";->");
    var parts := [head] + ms;
    assert forall k :: 0 <= k < |parts| ==> !Contains(parts[k], ";->") by {
      forall k | 0 <= k < |parts| ensures !Contains(parts[k], ";->") {
        if k > 0 { assert parts[k] == ms[k - 1]; }
      }
    }
    SplitJoin(parts, ";->");
    assert RemovePrefix(Build(ps, last, ms), "L") == Join(parts, ";->");
    forall k | 0 <= k < |names| ensures !Contains(names[k], "/") {
      FreeNotContains(names[k], "/");
    }
    SplitJoin(names, "/");
  }

  lemma JoinPair(a: string, sep: string, b: string)
    ensures Join([a, b], sep) == a + sep + b
  {
    assert [a, b][1..] == [b];
  }

  /** A member signature parses into its packages, its classes and its member. */
  lemma ParseMember(ps: seq<string>, cs: seq<string>, m: string)
    requires PlainNames(ps) && PlainNames(cs) && |cs| >= 1
    requires forall i :: 0 <= i < |cs| ==> Free(cs[i], '$') && Free(cs[i], '*')
    requires !IsLower(Join(cs, "$")) && PlainMember(m)
    ensures Parse("L" + Join(ps + [Join(cs, "$")], "/") + ";->" + m) == Success(Parsed(ps, cs, [m], []))
  {
    var last := Join(cs, "$");
    ClassPathFacts(ps, cs);
    JoinPair(Join(ps + [last], "/"), ";->", m);
    assert "L" + Join(ps + [last], "/") + ";->" + m == Build(ps, last, [m]);
    SplitsOfBuild(ps, last, [m]);
    assert (ps + [last])[..|ps|] == ps;
  }

  /** A class signature, without a member, parses into its packages and its classes. */
  lemma ParseClass(ps: seq<string>, cs: seq<string>)
    requires PlainNames(ps) && PlainNames(cs) && |cs| >= 1
    requires forall i :: 0 <= i < |cs| ==> Free(cs[i], '$') && Free(cs[i], '*')
    requires !IsLower(Join(cs, "$"))
    ensures Parse("L" + Join(ps + [Join(cs, "$")], "/")) == Success(Parsed(ps, cs, [], []))
  {
    var last := Join(cs, "$");
    ClassPathFacts(ps, cs);
    assert "L" + Join(ps + [last], "/") == Build(ps, last, []);
    SplitsOfBuild(ps, last, []);
    assert (ps + [last])[..|ps|] == ps;
  }

  /**
   * The usual class signature form, ending in ";", parses into the same
   * packages and classes: the ";" is removed before the split at "$".
   */
  lemma ParseClassWithSemicolon(ps: seq<string>, cs: seq<string>)
    requires PlainNames(ps) && PlainNames(cs) && |cs| >= 1
    requires forall i :: 0 <= i < |cs| ==> Free(cs[i], '$') && Free(cs[i], '*')
    requires !IsLower(Join(cs, "$"))
    ensures Parse("L" + Join(ps + [Join(cs, "$") + ";"], "/")) == Success(Parsed(ps, cs, [], []))
  {
    var last := Join(cs, "$");
    var text := Join(ps + [last + ";"], "/");
    ClassPathFacts(ps, cs);
    assert RemovePrefix("L" + text, "L") == text;
    ClosedNoArrow(ps, last);
    JoinFree(cs, "$", '/');
    ClosedPathSplit(ps, last);
    ClosedNoStar(cs);
    LowerIgnoresSemicolon(last);
    ClosedSuffix(last);
    assert (ps + [last + ";"])[..|ps|] == ps;
  }

  /** Class names free of '*' stay free of it when closed by ";". */
  lemma ClosedNoStar(cs: seq<string>)
    requires forall i :: 0 <= i < |cs| ==> Free(cs[i], '*')
    ensures !Contains(Join(cs, "$") + ";", "*")
  {
    JoinFree(cs, "$", '*');
    ClosedFree(Join(cs, "$"), '*');
    FreeNotContains(Join(cs, "$") + ";", "*");
  }

  /** The closing ";" is what `removesuffix(";")` takes off. */
  lemma ClosedSuffix(x: string)
    ensures RemoveSuffix(x + ";", ";") == x
  {
    assert (x + ";")[|x + ";"| - 1..] == ";";
  }

  /** A class path closed by ";" splits at "/" into its names, the last one with its ";". */
  lemma ClosedPathSplit(ps: seq<string>, last: string)
    requires PlainNames(ps) && Free(last, '/')
    ensures Split(Join(ps + [last + ";"], "/"), "/") == ps + [last + ";"]
  {
    var names := ps + [last + ";"];
    ClosedFree(last, '/');
    forall k | 0 <= k < |names| ensures !Contains(names[k], "/") {
      if k < |ps| {
        assert names[k] == ps[k];
      }
      FreeNotContains(names[k], "/");
    }
    SplitJoin(names, "/");
  }

  /** A class path whose names hold no ";" except the closing one is not split at ";->". */
  lemma ClosedNoArrow(ps: seq<string>, last: string)
    requires PlainNames(ps + [last])
    ensures var text := Join(ps + [last + ";"], "/"); Split(text, ";->") == [text]
  {
    var text := Join(ps + [last + ";"], "/");
    JoinAppendLast(ps, last, ";", "/");
    JoinFree(ps + [last], "/", ';');
    NoArrowBeforeEnd(Join(ps + [last], "/"));
    SplitJoin([text], ";->");
  }

  /** Appending ";" keeps a text free of any other character. */
  lemma ClosedFree(x: string, c: char)
    requires Free(x, c) && c != ';'
    ensures Free(x + ";", c)
  {
    forall i | 0 <= i < |x + ";"| ensures (x + ";")[i] != c {
      if i < |x| { assert (x + ";")[i] == x[i]; }
    }
  }

  /** A text holding ";" only as its last character contains no ";->". */
  lemma NoArrowBeforeEnd(head: string)
    requires Free(head, ';')
    ensures !Contains(head + ";", ";->")
  {
    var t := head + ";";
    forall j: nat | j + 3 <= |t| ensures !OccursAt(t, ";->", j) {
      assert t[j..j + 3][0] == t[j] == head[j];
    }
  }

  /** A trailing ";" is neither lower nor upper case, so it does not change `IsLower`. */
  lemma LowerIgnoresSemicolon(x: string)
    requires !IsLower(x)
    ensures !IsLower(x + ";")
  {
    var t := x + ";";
    if exists i :: 0 <= i < |x| && IsAsciiUpper(x[i]) {
      var i :| 0 <= i < |x| && IsAsciiUpper(x[i]);
      assert t[i] == x[i];
    } else {
      forall i | 0 <= i < |t| ensures !IsAsciiLower(t[i]) {
        if i < |x| { assert t[i] == x[i]; }
      }
    }
  }

  /** The joined class names are a plain last path element, kept whole by the suffix removal. */
  lemma ClassPathFacts(ps: seq<string>, cs: seq<string>)
    requires PlainNames(ps) && PlainNames(cs) && |cs| >= 1
    requires forall i :: 0 <= i < |cs| ==> Free(cs[i], '$') && Free(cs[i], '*')
    ensures PlainNames(ps + [Join(cs, "$")])
    ensures !Contains(Join(cs, "$"), "*")
    ensures RemoveSuffix(Join(cs, "$"), ";") == Join(cs, "$")
    ensures Split(Join(cs, "$"), "$") == cs
  {
    var last := Join(cs, "$");
    assert Free(last, '/') && Free(last, ';') by {
      JoinFree(cs, "$", '/');
      JoinFree(cs, "$", ';');
    }
    PlainNamesAppend(ps, last);
    assert !Contains(last, "*") by {
      JoinFree(cs, "$", '*');
      FreeNotContains(last, "*");
    }
    FreeKeepsSuffix(last, ';');
    assert Split(last, "$") == cs by {
      forall k | 0 <= k < |cs| ensures !Contains(cs[k], "$") {
        FreeNotContains(cs[k], "$");
      }
      SplitJoin(cs, "$");
    }
  }

  lemma PlainNamesAppend(xs: seq<string>, x: string)
    requires PlainNames(xs) && Free(x, '/') && Free(x, ';')
    ensures PlainNames(xs + [x])
  {
    forall i | 0 <= i < |xs + [x]| ensures Free((xs + [x])[i], '/') && Free((xs + [x])[i], ';') {
      if i < |xs| { assert (xs + [x])[i] == xs[i]; }
    }
  }

  /** A text without the character `c` has no suffix `[c]` to remove. */
  lemma FreeKeepsSuffix(x: string, c: char)
    requires Free(x, c)
    ensures RemoveSuffix(x, [c]) == x
  {
    if |x| >= 1 {
      assert x[|x| - 1..] != [c] by {
        assert x[|x| - 1..][0] == x[|x| - 1];
      }
    }
  }

  /** A package pattern ending in "*" or "**" parses into its packages and the wildcard. */
  lemma ParseWildcard(ps: seq<string>, w: string)
    requires PlainNames(ps) && (w == "*" || w == "**")
    ensures Parse("L" + Join(ps + [w], "/")) == Success(Parsed(ps, [], [], [w]))
  {
    WildcardText(w);
    PlainNamesAppend(ps, w);
    assert "L" + Join(ps + [w], "/") == Build(ps, w, []);
    SplitsOfBuild(ps, w, []);
    assert (ps + [w])[..|ps|] == ps;
  }

  /** A wildcard is a plain name that contains "*". */
  lemma WildcardText(w: string)
    requires w == "*" || w == "**"
    ensures Free(w, '/') && Free(w, ';') && Contains(w, "*")
  {
    assert OccursAt(w, "*", 0);
  }

  /** A last path element holding "*" other than "*" or "**" is rejected. */
  lemma ParseRejectsInvalidWildcard(ps: seq<string>, w: string, ms: seq<string>)
    requires PlainNames(ps + [w]) && Contains(w, "*") && w != "*" && w != "**"
    requires forall i :: 0 <= i < |ms| ==> PlainMember(ms[i])
    ensures Parse(Build(ps, w, ms)) == Failure(InvalidWildcard(Build(ps, w, ms), w))
  {
    SplitsOfBuild(ps, w, ms);
  }

  /** A wildcard together with a member is rejected, naming the first member. */
  lemma ParseRejectsWildcardWithMember(ps: seq<string>, w: string, ms: seq<string>)
    requires PlainNames(ps) && (w == "*" || w == "**") && |ms| >= 1
    requires forall i :: 0 <= i < |ms| ==> PlainMember(ms[i])
    ensures Parse(Build(ps, w, ms)) == Failure(WildcardWithMember(Build(ps, w, ms), w, ms[0]))
  {
    SplitsOfBuild(ps, w, ms);
    assert OccursAt(w, "*", 0);
  }

  /** Without a wildcard, an all-lower-case last path element is rejected: a class name is required. */
  lemma ParseRejectsLowerCase(ps: seq<string>, last: string, ms: seq<string>)
    requires PlainNames(ps + [last]) && !Contains(last, "*") && IsLower(last)
    requires forall i :: 0 <= i < |ms| ==> PlainMember(ms[i])
    ensures Parse(Build(ps, last, ms)) == Failure(LowerCaseLastElement(Build(ps, last, ms), last))
  {
    SplitsOfBuild(ps, last, ms);
  }

  // ---------------------------------------------------------------------
  // The trie as a value: interior nodes and leaves, named by their paths
  // ---------------------------------------------------------------------

  /**
   * A trie, with every node named by the element path that leads to it from
   * the root. `children[p]` lists, in insertion order, the keys of the
   * interior node at `p`; `leaves[p]` is the value of the leaf at `p`.
   */
  datatype TrieState<V> = TrieState(children: map<seq<string>, seq<string>>, leaves: map<seq<string>, V>)

  predicate IsNode<V>(s: TrieState<V>, p: seq<string>) {
    p in s.children || p in s.leaves
  }

  predicate NoDuplicates<T(==)>(xs: seq<T>) {
    forall i, j :: 0 <= i < j < |xs| ==> xs[i] != xs[j]
  }

  /**
   * The shape of a trie: the root is an interior node; no node is both; the
   * keys of an interior node are exactly the last elements of its children's
   * paths, each listed once.
   */
  ghost predicate ValidState<V>(s: TrieState<V>) {
    && [] in s.children
    && (forall p :: p in s.children ==> p !in s.leaves)
    && (forall p, k {:trigger k in s.children[p]} :: p in s.children && k in s.children[p] ==> IsNode(s, p + [k]))
    && (forall p, k {:trigger IsNode(s, p + [k])} :: IsNode(s, p + [k]) ==> p in s.children && k in s.children[p])
    && (forall p :: p in s.children ==> NoDuplicates(s.children[p]))
  }

  /** Every proper prefix of a node's path is an interior node. */
  lemma {:induction false} PrefixOfNode<V>(s: TrieState<V>, q: seq<string>, j: nat)
    requires ValidState(s) && j < |q|
    ensures IsNode(s, q) ==> q[..j] in s.children
    decreases |q| - j
  {
    if IsNode(s, q) {
      var parent := q[..|q| - 1];
      assert q == parent + [q[|q| - 1]];
      if j < |q| - 1 {
        PrefixOfNode(s, parent, j);
        assert parent[..j] == q[..j];
      } else {
        assert parent == q[..j];
      }
    }
  }

  /** Once a prefix of `q` is missing, so is every longer prefix, and `q` itself. */
  lemma NoNodeBeyond<V>(s: TrieState<V>, q: seq<string>, j: nat)
    requires ValidState(s) && j <= |q| && !IsNode(s, q[..j])
    ensures forall k :: j <= k <= |q| ==> !IsNode(s, q[..k])
  {
    forall k | j <= k <= |q| ensures !IsNode(s, q[..k]) {
      if j < k {
        PrefixOfNode(s, q[..k], j);
        assert q[..k][..j] == q[..j];
      }
    }
  }

  /** The nodes at or below `p`. */
  ghost function NodesBelow<V>(s: TrieState<V>, p: seq<string>): set<seq<string>> {
    set q | q in s.children.Keys + s.leaves.Keys && p <= q
  }

  lemma NodesBelowShrink<V>(s: TrieState<V>, p: seq<string>, k: string)
    requires p in s.children
    ensures NodesBelow(s, p + [k]) < NodesBelow(s, p)
  {
    assert p in NodesBelow(s, p);
    assert p !in NodesBelow(s, p + [k]);
    forall q | q in NodesBelow(s, p + [k]) ensures q in NodesBelow(s, p) {
      assert q[..|p|] == (p + [k])[..|p|];
    }
  }

  /** Which children of the queried node contribute values. */
  datatype Selector = All | NotPackage

  /**
   * The selector admits the child under `key`; skipping packages tests the
   * "package:" tag, which is testing the element type (see `SelectsByType`).
   */
  predicate Selects(sel: Selector, key: string) {
    sel.All? || !("package:" <= key)
  }

  /** On a typed element, skipping packages is exactly excluding the element type "package". */
  lemma SelectsByType(key: string)
    requires Contains(key, ":")
    ensures Selects(NotPackage, key) <==> ElementType(key) != "package"
  {
    FreeNotContains("package", ":");
    TagPrefix("package", key);
  }

  /** An element starts with `kind:` exactly when its type is `kind`, for a colon-free kind. */
  lemma TagPrefix(kind: string, key: string)
    requires Contains(key, ":") && !Contains(kind, ":")
    ensures kind + ":" <= key <==> ElementType(key) == kind
  {
    var (k, v) := SplitElement(key);
    if kind + ":" <= key {
      var rest := key[|kind| + 1..];
      assert key == kind + ":" + rest;
      SplitElementRoundTrip(kind, rest);
    }
    if k == kind {
      assert key == kind + ":" + v;
    }
  }

  /**
   * The leaves whose values a query at `p` collects, in the order the values
   * are appended: a leaf is itself; an interior node contributes, key by key
   * in insertion order, every leaf below each selected child.
   */
  ghost function LeafPaths<V>(s: TrieState<V>, p: seq<string>, sel: Selector): (qs: seq<seq<string>>)
    requires ValidState(s)
    ensures forall i :: 0 <= i < |qs| ==> qs[i] in s.leaves && p <= qs[i]
    decreases NodesBelow(s, p), 1
  {
    if p in s.leaves then [p]
    else if p in s.children then ChildPaths(s, p, s.children[p], sel)
    else []
  }

  /** The leaves below the selected children of `p` whose keys are `keys`. */
  ghost function ChildPaths<V>(s: TrieState<V>, p: seq<string>, keys: seq<string>, sel: Selector): (qs: seq<seq<string>>)
    requires ValidState(s) && p in s.children
    requires forall i :: 0 <= i < |keys| ==> keys[i] in s.children[p]
    ensures forall i :: 0 <= i < |qs| ==> qs[i] in s.leaves && |p| < |qs[i]| && p <= qs[i] && qs[i][|p|] in keys
    decreases NodesBelow(s, p), 0, |keys|
  {
    if keys == [] then []
    else
      var k := keys[|keys| - 1];
      var init := ChildPaths(s, p, keys[..|keys| - 1], sel);
      NodesBelowShrink(s, p, k);
      var tail := if Selects(sel, k) then LeafPaths(s, p + [k], All) else [];
      assert forall i :: 0 <= i < |tail| ==> |p| < |tail[i]| && p <= tail[i] && tail[i][|p|] == k by {
        forall i | 0 <= i < |tail| ensures |p| < |tail[i]| && p <= tail[i] && tail[i][|p|] == k {
          assert tail[i][..|p| + 1] == p + [k];
          assert tail[i][..|p|] == (p + [k])[..|p|];
        }
      }
      init + tail
  }

  /** Each leaf below `p` that a query selects is collected: both directions, for a query taking every child. */
  lemma LeafPathsAll<V>(s: TrieState<V>, p: seq<string>, q: seq<string>)
    requires ValidState(s) && IsNode(s, p)
    ensures q in LeafPaths(s, p, All) <==> q in s.leaves && p <= q
  {
    var qs := LeafPaths(s, p, All);
    if q in qs {
      var i :| 0 <= i < |qs| && qs[i] == q;
    }
    if q in s.leaves && p <= q {
      LeafPathsCollects(s, p, q);
    }
  }

  /** A leaf below the node `p` is among the leaves a query at `p` taking every child collects. */
  lemma {:induction false} LeafPathsCollects<V>(s: TrieState<V>, p: seq<string>, q: seq<string>)
    requires ValidState(s) && IsNode(s, p) && q in s.leaves && p <= q
    ensures q in LeafPaths(s, p, All)
    decreases NodesBelow(s, p)
  {
    assert q[..|p|] == p;
    if |p| < |q| {
      PrefixOfNode(s, q, |p|);
      var k := q[|p|];
      assert q[..|p| + 1] == p + [k];
      if |p| + 1 < |q| {
        PrefixOfNode(s, q, |p| + 1);
      } else {
        assert q[..|p| + 1] == q;
      }
      assert IsNode(s, p + [k]);
      NodesBelowShrink(s, p, k);
      LeafPathsCollects(s, p + [k], q);
      ChildPathsMember(s, p, s.children[p], All, q);
    } else {
      assert q == p;
    }
  }

  /** The leaves contributed by the children whose keys are `keys`. */
  lemma {:induction false} ChildPathsMember<V>(s: TrieState<V>, p: seq<string>, keys: seq<string>, sel: Selector, q: seq<string>)
    requires ValidState(s) && p in s.children
    requires forall i :: 0 <= i < |keys| ==> keys[i] in s.children[p]
    ensures q in ChildPaths(s, p, keys, sel) <==>
      |p| < |q| && q[|p|] in keys && Selects(sel, q[|p|]) && q in LeafPaths(s, p + [q[|p|]], All)
    decreases |keys|
  {
    if keys != [] {
      var k := keys[|keys| - 1];
      var init := keys[..|keys| - 1];
      assert keys == init + [k];
      ChildPathsMember(s, p, init, sel, q);
      if q in LeafPaths(s, p + [k], All) {
        assert q[..|p| + 1] == p + [k];
      }
    }
  }

  /**
   * The leaves a query at an interior node `p` collects are exactly the
   * leaves below `p` under a child whose key the selector accepts.
   */
  lemma LeafPathsMember<V>(s: TrieState<V>, p: seq<string>, sel: Selector, q: seq<string>)
    requires ValidState(s) && p in s.children
    ensures q in LeafPaths(s, p, sel) <==>
      q in s.leaves && |p| < |q| && p <= q && q[|p|] in s.children[p] && Selects(sel, q[|p|])
  {
    assert p !in s.leaves;
    assert LeafPaths(s, p, sel) == ChildPaths(s, p, s.children[p], sel);
    ChildPathsMember(s, p, s.children[p], sel, q);
    if q in s.leaves && |p| < |q| && p <= q && q[|p|] in s.children[p] {
      var k := q[|p|];
      assert q[..|p| + 1] == p + [k];
      assert IsNode(s, p + [k]);
      LeafPathsAll(s, p + [k], q);
    }
  }

  lemma DistinctConcat<T>(a: seq<T>, b: seq<T>)
    requires NoDuplicates(a) && NoDuplicates(b)
    requires forall i, j :: 0 <= i < |a| && 0 <= j < |b| ==> a[i] != b[j]
    ensures NoDuplicates(a + b)
  {
    var c := a + b;
    forall i, j | 0 <= i < j < |c| ensures c[i] != c[j] {
      if j < |a| {
        assert c[i] == a[i] && c[j] == a[j];
      } else if i >= |a| {
        assert c[i] == b[i - |a|] && c[j] == b[j - |a|];
      } else {
        assert c[i] == a[i] && c[j] == b[j - |a|];
      }
    }
  }

  /** No leaf is collected twice. */
  lemma {:induction false} LeafPathsDistinct<V>(s: TrieState<V>, p: seq<string>, sel: Selector)
    requires ValidState(s)
    ensures NoDuplicates(LeafPaths(s, p, sel))
    decreases NodesBelow(s, p), 1
  {
    if p !in s.leaves && p in s.children {
      ChildPathsDistinct(s, p, s.children[p], sel);
    }
  }

  lemma {:induction false} ChildPathsDistinct<V>(s: TrieState<V>, p: seq<string>, keys: seq<string>, sel: Selector)
    requires ValidState(s) && p in s.children && NoDuplicates(keys)
    requires forall i :: 0 <= i < |keys| ==> keys[i] in s.children[p]
    ensures NoDuplicates(ChildPaths(s, p, keys, sel))
    decreases NodesBelow(s, p), 0, |keys|
  {
    if keys != [] {
      var k := keys[|keys| - 1];
      var init := keys[..|keys| - 1];
      ChildPathsDistinct(s, p, init, sel);
      var a := ChildPaths(s, p, init, sel);
      var b := if Selects(sel, k) then LeafPaths(s, p + [k], All) else [];
      NodesBelowShrink(s, p, k);
      LeafPathsDistinct(s, p + [k], All);
      forall j | 0 <= j < |b| ensures b[j][|p|] == k {
        assert b[j][..|p| + 1] == p + [k];
      }
      assert k !in init;
      DistinctConcat(a, b);
      assert ChildPaths(s, p, keys, sel) == a + b;
    }
  }

  /** One row `[value]` per collected leaf, as the leaves append them. */
  ghost function Rows<V>(s: TrieState<V>, qs: seq<seq<string>>): seq<seq<V>>
    requires forall i :: 0 <= i < |qs| ==> qs[i] in s.leaves
  {
    seq(|qs|, i requires 0 <= i < |qs| => [s.leaves[qs[i]]])
  }

  lemma RowsAppend<V>(s: TrieState<V>, a: seq<seq<string>>, b: seq<seq<string>>)
    requires forall i :: 0 <= i < |a| ==> a[i] in s.leaves
    requires forall i :: 0 <= i < |b| ==> b[i] in s.leaves
    ensures Rows(s, a + b) == Rows(s, a) + Rows(s, b)
  {
    assert forall i :: 0 <= i < |a + b| ==> (a + b)[i] == if i < |a| then a[i] else b[i - |a|];
  }

  /** Collecting the leaves below one more key of `p` appends that key's rows, when it is selected. */
  lemma ChildRowsStep<V>(s: TrieState<V>, p: seq<string>, keys: seq<string>, i: nat, sel: Selector)
    requires ValidState(s) && p in s.children && i < |keys|
    requires forall j :: 0 <= j < |keys| ==> keys[j] in s.children[p]
    ensures IsNode(s, p + [keys[i]])
    ensures Selects(sel, keys[i]) ==>
      Rows(s, ChildPaths(s, p, keys[..i + 1], sel))
      == Rows(s, ChildPaths(s, p, keys[..i], sel)) + Rows(s, LeafPaths(s, p + [keys[i]], All))
    ensures !Selects(sel, keys[i]) ==> ChildPaths(s, p, keys[..i + 1], sel) == ChildPaths(s, p, keys[..i], sel)
  {
    assert keys[i] in s.children[p];
    assert keys[..i + 1][..i] == keys[..i];
    var before := ChildPaths(s, p, keys[..i], sel);
    if Selects(sel, keys[i]) {
      RowsAppend(s, before, LeafPaths(s, p + [keys[i]], All));
    }
  }

  /** One more key of the loop in `AppendValues`: its rows follow the earlier keys' rows. */
  lemma ChildRowsNext<V>(s: TrieState<V>, p: seq<string>, keys: seq<string>, i: nat, sel: Selector,
                         values: seq<seq<V>>, before: seq<seq<V>>, after: seq<seq<V>>)
    requires ValidState(s) && p in s.children && i < |keys|
    requires forall j :: 0 <= j < |keys| ==> keys[j] in s.children[p]
    requires before == values + Rows(s, ChildPaths(s, p, keys[..i], sel))
    requires Selects(sel, keys[i]) ==> after == before + Rows(s, LeafPaths(s, p + [keys[i]], All))
    requires !Selects(sel, keys[i]) ==> after == before
    ensures after == values + Rows(s, ChildPaths(s, p, keys[..i + 1], sel))
  {
    ChildRowsStep(s, p, keys, i, sel);
    if Selects(sel, keys[i]) {
      AppendAssoc(values, Rows(s, ChildPaths(s, p, keys[..i], sel)), Rows(s, LeafPaths(s, p + [keys[i]], All)));
    }
  }

  lemma AppendAssoc<T>(a: seq<T>, b: seq<T>, c: seq<T>)
    ensures a + b + c == a + (b + c)
  {
  }

  /** The rows concatenated in order (Python itertools.chain.from_iterable). */
  function Flatten<T>(rows: seq<seq<T>>): seq<T> {
    if rows == [] then [] else Flatten(rows[..|rows| - 1]) + rows[|rows| - 1]
  }

  /** Flattening the rows gives each collected leaf's value exactly once, in order. */
  lemma {:induction false} FlattenRows<V>(s: TrieState<V>, qs: seq<seq<string>>)
    requires forall i :: 0 <= i < |qs| ==> qs[i] in s.leaves
    ensures |Flatten(Rows(s, qs))| == |qs|
    ensures forall i :: 0 <= i < |qs| ==> Flatten(Rows(s, qs))[i] == s.leaves[qs[i]]
  {
    if qs != [] {
      var init := qs[..|qs| - 1];
      FlattenRows(s, init);
      assert Rows(s, qs)[..|qs| - 1] == Rows(s, init);
    }
  }

  // ---------------------------------------------------------------------
  // Queries
  // ---------------------------------------------------------------------

  /** The failures of adding and querying. */
  datatype TrieError =
    | InvalidSignature(cause: SignatureError)
    | NotMember(signature: string)
    | Duplicate(signature: string)
    | LeafInPath(signature: string)

  /** The text of the exception raised for `e`. */
  function TrieMessage(e: TrieError): string {
    match e
    case InvalidSignature(c) => SignatureMessage(c)
    case NotMember(s) => "Invalid signature: " + s + ", does not identify a specific member"
    case Duplicate(s) => "Duplicate signature: " + s
    case LeafInPath(_) => "'Leaf' object has no attribute 'nodes'"
  }

  /**
   * The node a pattern's element list queries and the selector for its
   * children: a trailing wildcard is dropped, and "*" skips packages.
   */
  function QueryTarget(es: seq<string>): (seq<string>, Selector)
    requires |es| >= 1 && Contains(es[|es| - 1], ":")
  {
    var (kind, value) := SplitElement(es[|es| - 1]);
    if kind == "wildcard" then (es[..|es| - 1], if value == "*" then NotPackage else All) else (es, All)
  }

  /**
   * The result of a query: the values below the queried node; a failure when
   * the walk would pass through a leaf; nothing when the path is absent.
   */
  ghost function Matching<V>(s: TrieState<V>, pattern: string): Result<seq<V>, TrieError>
    requires ValidState(s)
  {
    match SignatureToElements(pattern)
    case Failure(e) => Failure(InvalidSignature(e))
    case Success(es) => MatchingElements(s, pattern, es)
  }

  /** `Matching` for the parsed element list `es` of `pattern`. */
  ghost function MatchingElements<V>(s: TrieState<V>, pattern: string, es: seq<string>): Result<seq<V>, TrieError>
    requires ValidState(s) && |es| >= 1 && Contains(es[|es| - 1], ":")
  {
    var (path, sel) := QueryTarget(es);
    if IsNode(s, path) then Success(Flatten(Rows(s, LeafPaths(s, path, sel))))
    else if LeafOnPath(s, path, |path|) then Failure(LeafInPath(pattern))
    else Success([])
  }


  // ---------------------------------------------------------------------
  // Adding a member signature
  // ---------------------------------------------------------------------

  /**
   * The interior nodes after walking the first `n` elements of `path` from
   * the root: at each interior node on the way, a missing key for the next
   * element is appended and a new, empty interior node created for it.
   */
  ghost function Extend<V>(s: TrieState<V>, path: seq<string>, n: nat): map<seq<string>, seq<string>>
    requires n <= |path|
  {
    if n == 0 then s.children
    else
      var e := Extend(s, path, n - 1);
      var p := path[..n - 1];
      if p in e && path[n - 1] !in e[p] then e[p := e[p] + [path[n - 1]]][path[..n] := []] else e
  }

  /** Walking along existing nodes creates nothing. */
  lemma {:induction false} ExtendNoop<V>(s: TrieState<V>, path: seq<string>, n: nat)
    requires ValidState(s) && n <= |path|
    ensures IsNode(s, path[..n]) ==> Extend(s, path, n) == s.children
  {
    if n > 0 && IsNode(s, path[..n]) {
      assert path[..n] == path[..n - 1] + [path[n - 1]];
      assert IsNode(s, path[..n - 1] + [path[n - 1]]);
      ExtendNoop(s, path, n - 1);
    }
  }

  /** Walking a path with no leaf on it keeps the shape of a trie. */
  lemma {:induction false} ExtendValid<V>(s: TrieState<V>, path: seq<string>, n: nat)
    requires ValidState(s) && n <= |path|
    ensures ValidState(TrieState(Extend(s, path, n), s.leaves))
  {
    if n > 0 {
      ExtendValid(s, path, n - 1);
      var t := TrieState(Extend(s, path, n - 1), s.leaves);
      var p := path[..n - 1];
      if p in t.children && path[n - 1] !in t.children[p] {
        assert path[..n] == p + [path[n - 1]];
        AddChildValid(t, p, path[n - 1]);
      }
    }
  }

  /** The walk reaches depth `n` at an interior node, when no prefix up to `n` is a leaf. */
  lemma {:induction false} ExtendReaches<V>(s: TrieState<V>, path: seq<string>, n: nat)
    requires ValidState(s) && n <= |path|
    requires forall k :: 0 <= k <= n ==> path[..k] !in s.leaves
    ensures path[..n] in Extend(s, path, n)
  {
    if n == 0 {
      assert path[..0] == [];
    } else {
      ExtendReaches(s, path, n - 1);
      ExtendValid(s, path, n - 1);
      var t := TrieState(Extend(s, path, n - 1), s.leaves);
      assert path[..n] == path[..n - 1] + [path[n - 1]];
      assert path[n - 1] in t.children[path[..n - 1]] ==> IsNode(t, path[..n - 1] + [path[n - 1]]);
    }
  }

  /**
   * The walk leaves every old node in place and its keys untouched, except
   * that a node on the path may gain the next element as its last key.
   */
  lemma {:induction false} ExtendKeeps<V>(s: TrieState<V>, path: seq<string>, n: nat, p: seq<string>)
    requires ValidState(s) && n <= |path| && p in s.children
    ensures p in Extend(s, path, n)
    ensures Extend(s, path, n)[p] == s.children[p]
      || (|p| < n && p == path[..|p|] && Extend(s, path, n)[p] == s.children[p] + [path[|p|]])
  {
    if n > 0 {
      ExtendKeeps(s, path, n - 1, p);
      var q := path[..n - 1];
      assert path[..n] == q + [path[n - 1]];
      if q in s.children {
        ExtendKeeps(s, path, n - 1, q);
      }
      var e := Extend(s, path, n - 1);
      if q in e && path[n - 1] !in e[q] {
        assert !IsNode(s, q + [path[n - 1]]);
        assert path[..n] != p;
        if p == q {
          assert e[p] == s.children[p];
        }
      }
    }
  }

  /** Every node the walk creates is a prefix of the path. */
  lemma {:induction false} ExtendNew<V>(s: TrieState<V>, path: seq<string>, n: nat)
    requires n <= |path|
    ensures forall p {:trigger p in Extend(s, path, n)} :: p in Extend(s, path, n) && p !in s.children ==> |p| <= n && p == path[..|p|]
  {
    if n > 0 {
      ExtendNew(s, path, n - 1);
    }
  }

  /** Creating a missing child keeps the shape of a trie. */
  lemma AddChildValid<V>(s: TrieState<V>, p: seq<string>, k: string)
    requires ValidState(s) && p in s.children && !IsNode(s, p + [k])
    ensures ValidState(TrieState(s.children[p := s.children[p] + [k]][p + [k] := []], s.leaves))
  {
    var c := s.children[p := s.children[p] + [k]][p + [k] := []];
    var t := TrieState(c, s.leaves);
    assert k !in s.children[p];
    forall p', k' | IsNode(t, p' + [k']) ensures p' in c && k' in c[p'] {
      if p' + [k'] == p + [k] {
        assert p' == (p + [k])[..|p|] == p;
        assert k' == (p + [k])[|p|] == k;
      } else {
        assert IsNode(s, p' + [k']);
      }
    }
    forall p', k' | p' in c && k' in c[p'] ensures IsNode(t, p' + [k']) {
      if p' == p + [k] {
      } else if p' == p && k' == k {
      } else {
        assert k' in s.children[p'];
      }
    }
  }

  /** Adding a leaf under an interior node, at a missing child, keeps the shape of a trie. */
  lemma AddLeafValid<V>(s: TrieState<V>, p: seq<string>, k: string, v: V)
    requires ValidState(s) && p in s.children && !IsNode(s, p + [k])
    ensures ValidState(TrieState(s.children[p := s.children[p] + [k]], s.leaves[p + [k] := v]))
  {
    var c := s.children[p := s.children[p] + [k]];
    var t := TrieState(c, s.leaves[p + [k] := v]);
    assert k !in s.children[p];
    forall p', k' | IsNode(t, p' + [k']) ensures p' in c && k' in c[p'] {
      if p' + [k'] == p + [k] {
        assert p' == (p + [k])[..|p|] == p;
        assert k' == (p + [k])[|p|] == k;
      } else {
        assert IsNode(s, p' + [k']);
      }
    }
    forall p', k' | p' in c && k' in c[p'] ensures IsNode(t, p' + [k']) {
      if p' == p && k' == k {
      } else {
        assert k' in s.children[p'];
      }
    }
  }

  /**
   * One step of the walk of `add` from the node at `path[..i]`, which is not
   * a leaf: the next node exists afterwards and the trie keeps its shape.
   */
  lemma WalkStep<V>(s: TrieState<V>, path: seq<string>, i: nat)
    requires ValidState(s) && i < |path|
    requires !LeafOnPath(s, path, i + 1)
    requires IsNode(TrieState(Extend(s, path, i), s.leaves), path[..i])
    ensures path[..i] in Extend(s, path, i)
    ensures ValidState(TrieState(Extend(s, path, i + 1), s.leaves))
    ensures IsNode(TrieState(Extend(s, path, i + 1), s.leaves), path[..i + 1])
  {
    assert path[..i] !in s.leaves;
    ExtendValid(s, path, i);
    ExtendValid(s, path, i + 1);
    var e := Extend(s, path, i);
    assert path[..i + 1] == path[..i] + [path[i]];
    if path[i] in e[path[..i]] {
      assert IsNode(TrieState(e, s.leaves), path[..i] + [path[i]]);
    }
  }

  /**
   * Where the walk of `add` ends: at a leaf the walk created nothing; at an
   * interior node, the last element is already a key exactly when the
   * signature was already a node, and then the walk created nothing either.
   */
  lemma LastStep<V>(s: TrieState<V>, path: seq<string>)
    requires ValidState(s) && |path| >= 1 && Contains(path[|path| - 1], ":")
    requires !LeafOnPath(s, path, |path| - 1)
    ensures ValidState(TrieState(Extend(s, path, |path| - 1), s.leaves))
    ensures path[..|path| - 1] in s.leaves ==> Extend(s, path, |path| - 1) == s.children
    ensures path[..|path| - 1] !in s.leaves ==> path[..|path| - 1] in Extend(s, path, |path| - 1)
    ensures path[..|path| - 1] !in s.leaves ==>
      (path[|path| - 1] in Extend(s, path, |path| - 1)[path[..|path| - 1]] <==> IsNode(s, path))
    ensures IsNode(s, path) ==> Extend(s, path, |path| - 1) == s.children
  {
    var n := |path|;
    var q := path[..n - 1];
    var last := path[n - 1];
    assert path == q + [last];
    ExtendValid(s, path, n - 1);
    ExtendNoop(s, path, n - 1);
    PrefixOfNode(s, path, n - 1);
    if q !in s.leaves {
      ExtendReaches(s, path, n - 1);
      ExtendNew(s, path, n - 1);
      var grown := Extend(s, path, n - 1);
      if q in s.children {
        ExtendKeeps(s, path, n - 1, q);
      }
      if last in grown[q] {
        assert IsNode(TrieState(grown, s.leaves), q + [last]);
        assert path in grown || path in s.leaves;
      }
      if IsNode(s, q + [last]) {
        assert last in s.children[q];
      }
    }
  }

  /** Some proper prefix of `path` shorter than `m` is a leaf. */
  ghost predicate LeafOnPath<V>(s: TrieState<V>, path: seq<string>, m: nat)
    requires m <= |path|
  {
    exists k :: 0 <= k < m && path[..k] in s.leaves
  }

  /**
   * What `add` does, as the new trie and the outcome. The walk fails at a
   * leaf before the last element; otherwise it creates the missing nodes,
   * which stay even when the last element is not a member; a leaf at the
   * parent or an existing entry at the signature is a failure; otherwise the
   * leaf is stored under its parent's new key.
   */
  ghost function AddSpec<V>(s: TrieState<V>, signature: string, value: V): (TrieState<V>, Result<(), TrieError>)
    requires ValidState(s)
  {
    match SignatureToElements(signature)
    case Failure(e) => (s, Failure(InvalidSignature(e)))
    case Success(es) => AddElements(s, signature, es, value)
  }

  /** `AddSpec` for the parsed element list `es` of `signature`. */
  ghost function AddElements<V>(s: TrieState<V>, signature: string, es: seq<string>, value: V): (TrieState<V>, Result<(), TrieError>)
    requires ValidState(s) && |es| >= 1 && Contains(es[|es| - 1], ":")
  {
    var n := |es|;
    if LeafOnPath(s, es, n - 1) then (s, Failure(LeafInPath(signature)))
    else
      var grown := Extend(s, es, n - 1);
      if ElementType(es[n - 1]) != "member" then (TrieState(grown, s.leaves), Failure(NotMember(signature)))
      else if es[..n - 1] in s.leaves then (s, Failure(LeafInPath(signature)))
      else if IsNode(s, es) then (s, Failure(Duplicate(signature)))
      else
        ExtendReaches(s, es, n - 1);
        (TrieState(grown[es[..n - 1] := grown[es[..n - 1]] + [es[n - 1]]], s.leaves[es := value]), Success(()))
  }

  /** Adding keeps the shape of a trie, whatever the outcome. */
  lemma AddElementsValid<V>(s: TrieState<V>, signature: string, es: seq<string>, value: V)
    requires ValidState(s) && |es| >= 1 && Contains(es[|es| - 1], ":")
    ensures ValidState(AddElements(s, signature, es, value).0)
  {
    var n := |es|;
    if !LeafOnPath(s, es, n - 1) {
      ExtendValid(s, es, n - 1);
      var grown := Extend(s, es, n - 1);
      if ElementType(es[n - 1]) == "member" && es[..n - 1] !in s.leaves && !IsNode(s, es) {
        ExtendReaches(s, es, n - 1);
        ExtendNew(s, es, n - 1);
        assert es[..n - 1] + [es[n - 1]] == es;
        AddLeafValid(TrieState(grown, s.leaves), es[..n - 1], es[n - 1], value);
      }
    }
  }

  lemma AddSpecValid<V>(s: TrieState<V>, signature: string, value: V)
    requires ValidState(s)
    ensures ValidState(AddSpec(s, signature, value).0)
  {
    if SignatureToElements(signature).Success? {
      AddElementsValid(s, signature, SignatureToElements(signature).value, value);
    }
  }

  /** After a successful add of a signature, querying that signature gives exactly the added value. */
  lemma AddThenMatch<V>(s: TrieState<V>, signature: string, value: V)
    requires ValidState(s) && AddSpec(s, signature, value).1.Success?
    ensures ValidState(AddSpec(s, signature, value).0)
    ensures Matching(AddSpec(s, signature, value).0, signature) == Success([value])
  {
    AddSpecValid(s, signature, value);
    AddElementsThenMatch(s, signature, SignatureToElements(signature).value, value);
  }

  lemma AddElementsThenMatch<V>(s: TrieState<V>, signature: string, es: seq<string>, value: V)
    requires ValidState(s) && |es| >= 1 && Contains(es[|es| - 1], ":")
    requires AddElements(s, signature, es, value).1.Success?
    ensures ValidState(AddElements(s, signature, es, value).0)
    ensures MatchingElements(AddElements(s, signature, es, value).0, signature, es) == Success([value])
  {
    AddElementsValid(s, signature, es, value);
    var t := AddElements(s, signature, es, value).0;
    assert es in t.leaves && t.leaves[es] == value;
    assert QueryTarget(es) == (es, All);
    assert LeafPaths(t, es, All) == [es];
    assert Rows(t, [es]) == [[value]];
    assert Flatten([[value]]) == [value];
  }

  /** Adding a signature a second time fails as a duplicate and changes nothing. */
  lemma AddTwice<V>(s: TrieState<V>, signature: string, value: V, other: V)
    requires ValidState(s) && AddSpec(s, signature, value).1.Success?
    ensures ValidState(AddSpec(s, signature, value).0)
    ensures AddSpec(AddSpec(s, signature, value).0, signature, other)
      == (AddSpec(s, signature, value).0, Failure(Duplicate(signature)))
  {
    AddSpecValid(s, signature, value);
    AddElementsTwice(s, signature, SignatureToElements(signature).value, value, other);
  }

  lemma AddElementsTwice<V>(s: TrieState<V>, signature: string, es: seq<string>, value: V, other: V)
    requires ValidState(s) && |es| >= 1 && Contains(es[|es| - 1], ":")
    requires AddElements(s, signature, es, value).1.Success?
    ensures ValidState(AddElements(s, signature, es, value).0)
    ensures AddElements(AddElements(s, signature, es, value).0, signature, es, other)
      == (AddElements(s, signature, es, value).0, Failure(Duplicate(signature)))
  {
    AddElementsValid(s, signature, es, value);
    var t := AddElements(s, signature, es, value).0;
    var n := |es|;
    assert es in t.leaves;
    forall k | 0 <= k < n ensures es[..k] in t.children {
      PrefixOfNode(t, es, k);
    }
    assert !LeafOnPath(t, es, n - 1);
  }

  /** A signature without a member (a class or a package pattern) never adds a leaf. */
  lemma AddRequiresMember<V>(s: TrieState<V>, signature: string, value: V)
    requires ValidState(s) && Parse(signature).Success? && Parse(signature).value.members == []
    ensures AddSpec(s, signature, value).1.Failure?
    ensures AddSpec(s, signature, value).0.leaves == s.leaves
  {
    var p := Parse(signature).value;
    var es := Elements(p);
    assert SignatureToElements(signature) == Success(es);
    LastNotMember(p);
    AddElementsNeedsMember(s, signature, es, value);
  }

  /** Without members, the last element of a parse has another type. */
  lemma LastNotMember(p: Parsed)
    requires p.members == [] && |Elements(p)| >= 1
    ensures Contains(Elements(p)[|Elements(p)| - 1], ":")
    ensures ElementType(Elements(p)[|Elements(p)| - 1]) != "member"
  {
    ElementKinds(p);
    var a, b := seq(|p.packages|, _ => "package"), seq(|p.classes|, _ => "class");
    var c, d := seq(|p.members|, _ => "member"), seq(|p.wildcards|, _ => "wildcard");
    assert c == [];
    LastOfConcat(a + b + c, d);
    if d == [] {
      LastOfConcat(a + b, c);
      LastOfConcat(a, b);
    }
    assert |Kinds(p)[|Kinds(p)| - 1]| != |"member"|;
  }

  /** The last element of a concatenation: the second part's, unless that is empty. */
  lemma LastOfConcat<T>(a: seq<T>, b: seq<T>)
    requires |a + b| >= 1
    ensures (a + b)[|a + b| - 1] == if |b| >= 1 then b[|b| - 1] else a[|a| - 1]
  {
  }

  /** An element list whose last element is not a member is rejected, and no leaf is added. */
  lemma AddElementsNeedsMember<V>(s: TrieState<V>, signature: string, es: seq<string>, value: V)
    requires ValidState(s) && |es| >= 1 && Contains(es[|es| - 1], ":")
    requires ElementType(es[|es| - 1]) != "member"
    ensures AddElements(s, signature, es, value).1.Failure?
    ensures AddElements(s, signature, es, value).0.leaves == s.leaves
  {
  }

  /** `p` is a proper prefix of the element list `es`: a node on its path. */
  predicate OnPath(es: seq<string>, p: seq<string>) {
    |p| < |es| && p == es[..|p|]
  }

  /**
   * Adding touches nothing off the signature's path, with `es` its element
   * list: old leaves stay, and a new leaf appears only on success and only at
   * `es`; old interior nodes keep their keys except along the path, where a
   * node gains the next element; new interior nodes lie on the path.
   */
  lemma AddIsLocal<V>(s: TrieState<V>, signature: string, es: seq<string>, value: V)
    requires ValidState(s) && |es| >= 1 && Contains(es[|es| - 1], ":")
    ensures AddElements(s, signature, es, value).1.Success? ==>
      (es !in s.leaves && AddElements(s, signature, es, value).0.leaves == s.leaves[es := value])
    ensures AddElements(s, signature, es, value).1.Failure? ==>
      AddElements(s, signature, es, value).0.leaves == s.leaves
    ensures forall p {:trigger p in s.children} :: p in s.children ==>
      (var t := AddElements(s, signature, es, value).0;
       p in t.children && (t.children[p] == s.children[p] || (OnPath(es, p) && t.children[p] == s.children[p] + [es[|p|]])))
    ensures forall p :: p in AddElements(s, signature, es, value).0.children && p !in s.children ==> OnPath(es, p)
  {
    AddLeavesLocal(s, signature, es, value);
    AddChildrenLocal(s, signature, es, value);
  }

  /** The leaves part of `AddIsLocal`. */
  lemma AddLeavesLocal<V>(s: TrieState<V>, signature: string, es: seq<string>, value: V)
    requires ValidState(s) && |es| >= 1 && Contains(es[|es| - 1], ":")
    ensures AddElements(s, signature, es, value).1.Success? ==>
      (es !in s.leaves && AddElements(s, signature, es, value).0.leaves == s.leaves[es := value])
    ensures AddElements(s, signature, es, value).1.Failure? ==>
      AddElements(s, signature, es, value).0.leaves == s.leaves
  {
    var n := |es|;
    if !LeafOnPath(s, es, n - 1) && ElementType(es[n - 1]) == "member" && es[..n - 1] !in s.leaves && !IsNode(s, es) {
      assert es !in s.leaves;
    }
  }

  /** The interior-nodes part of `AddIsLocal`. */
  lemma AddChildrenLocal<V>(s: TrieState<V>, signature: string, es: seq<string>, value: V)
    requires ValidState(s) && |es| >= 1 && Contains(es[|es| - 1], ":")
    ensures forall p {:trigger p in s.children} :: p in s.children ==>
      (var t := AddElements(s, signature, es, value).0;
       p in t.children && (t.children[p] == s.children[p] || (OnPath(es, p) && t.children[p] == s.children[p] + [es[|p|]])))
    ensures forall p :: p in AddElements(s, signature, es, value).0.children && p !in s.children ==> OnPath(es, p)
  {
    var t := AddElements(s, signature, es, value).0;
    forall p {:trigger p in s.children} | p in s.children
      ensures p in t.children && (t.children[p] == s.children[p] || (OnPath(es, p) && t.children[p] == s.children[p] + [es[|p|]]))
    {
      AddChildKept(s, signature, es, value, p);
    }
    AddChildrenNew(s, signature, es, value);
  }

  /** One old interior node after adding: in place, gaining at most the next element of the path. */
  lemma AddChildKept<V>(s: TrieState<V>, signature: string, es: seq<string>, value: V, p: seq<string>)
    requires ValidState(s) && |es| >= 1 && Contains(es[|es| - 1], ":") && p in s.children
    ensures var t := AddElements(s, signature, es, value).0;
      p in t.children && (t.children[p] == s.children[p] || (OnPath(es, p) && t.children[p] == s.children[p] + [es[|p|]]))
  {
    var n := |es|;
    if !LeafOnPath(s, es, n - 1) {
      var grown := Extend(s, es, n - 1);
      var q := es[..n - 1];
      ExtendKeeps(s, es, n - 1, p);
      assert p in grown && (grown[p] == s.children[p] || (OnPath(es, p) && grown[p] == s.children[p] + [es[|p|]]));
      if ElementType(es[n - 1]) == "member" && q !in s.leaves && !IsNode(s, es) {
        assert forall k :: 0 <= k <= n - 1 ==> es[..k] !in s.leaves;
        ExtendReaches(s, es, n - 1);
        var t := AddElements(s, signature, es, value).0;
        assert t.children == grown[q := grown[q] + [es[n - 1]]];
        if p == q {
          assert grown[p] == s.children[p];
          assert OnPath(es, p);
        }
      }
    }
  }

  /** The new interior nodes after adding all lie on the path. */
  lemma AddChildrenNew<V>(s: TrieState<V>, signature: string, es: seq<string>, value: V)
    requires ValidState(s) && |es| >= 1 && Contains(es[|es| - 1], ":")
    ensures forall p :: p in AddElements(s, signature, es, value).0.children && p !in s.children ==> OnPath(es, p)
  {
    var n := |es|;
    if !LeafOnPath(s, es, n - 1) {
      ExtendNew(s, es, n - 1);
      if ElementType(es[n - 1]) == "member" && es[..n - 1] !in s.leaves && !IsNode(s, es) {
        assert forall k :: 0 <= k <= n - 1 ==> es[..k] !in s.leaves;
        ExtendReaches(s, es, n - 1);
      }
    }
  }

  lemma WholeSlice<T>(xs: seq<T>)
    ensures xs[..|xs|] == xs
  {
  }

  /** A query whose walk meets a leaf before its end fails. */
  lemma QueryAtLeaf<V>(s: TrieState<V>, path: seq<string>, i: nat)
    requires ValidState(s) && i < |path| && path[..i] in s.leaves
    ensures !IsNode(s, path) && LeafOnPath(s, path, |path|)
  {
    PrefixOfNode(s, path, i);
  }

  /**
   * One step of the walk of a query from the interior node at `path[..i]`:
   * a present key leads to the next node; a missing key means the queried
   * node is absent and no prefix of its path is a leaf.
   */
  lemma QueryStep<V>(s: TrieState<V>, path: seq<string>, i: nat)
    requires ValidState(s) && i < |path| && path[..i] in s.children
    requires !LeafOnPath(s, path, i)
    ensures !LeafOnPath(s, path, i + 1)
    ensures path[i] in s.children[path[..i]] ==> IsNode(s, path[..i + 1])
    ensures path[i] !in s.children[path[..i]] ==> !IsNode(s, path) && !LeafOnPath(s, path, |path|)
  {
    assert path[..i + 1] == path[..i] + [path[i]];
    if path[i] !in s.children[path[..i]] {
      assert !IsNode(s, path[..i] + [path[i]]);
      NoNodeBeyond(s, path, i + 1);
      assert path[..|path|] == path;
      forall k | 0 <= k < |path| ensures path[..k] !in s.leaves {
        if k > i {
          assert !IsNode(s, path[..k]);
        }
      }
    }
  }

  // ---------------------------------------------------------------------
  // The trie object
  // ---------------------------------------------------------------------

  /** A trie whose interior nodes and leaves are updated in place. */
  class Trie<V> {
    var children: map<seq<string>, seq<string>>
    var leaves: map<seq<string>, V>

    ghost function State(): TrieState<V>
      reads this
    {
      TrieState(children, leaves)
    }

    ghost predicate Valid()
      reads this
    {
      ValidState(State())
    }

    /** An empty trie: a root interior node without children. */
    constructor ()
      ensures Valid() && children == map[[] := []] && leaves == map[]
    {
      children := map[[] := []];
      leaves := map[];
    }

    /** Associates `value` with the member `signature`, walking and extending its path. */
    method Add(signature: string, value: V) returns (r: Result<(), TrieError>)
      requires Valid()
      modifies this
      ensures Valid()
      ensures (State(), r) == AddSpec(old(State()), signature, value)
    {
      AddSpecValid(State(), signature, value);
      var parsed := SignatureToElements(signature);
      if parsed.Failure? {
        return Failure(InvalidSignature(parsed.error));
      }
      r := AddElementList(signature, parsed.value, value);
    }

    /** `Add` once the signature is split into its element list `elements`. */
    method AddElementList(signature: string, elements: seq<string>, value: V) returns (r: Result<(), TrieError>)
      requires Valid() && |elements| >= 1 && Contains(elements[|elements| - 1], ":")
      modifies this
      ensures (State(), r) == AddElements(old(State()), signature, elements, value)
    {
      ghost var s := State();
      var n := |elements|;
      var blocked := Walk(elements, n - 1);
      if blocked {
        // Walking on from a leaf: Python raises AttributeError.
        return Failure(LeafInPath(signature));
      }
      var last := elements[n - 1];
      if ElementType(last) != "member" {
        return Failure(NotMember(signature));
      }
      LastStep(s, elements);
      var parent := elements[..n - 1];
      if parent in leaves {
        // `last_element in node.nodes` on a leaf: Python raises AttributeError.
        return Failure(LeafInPath(signature));
      }
      if last in children[parent] {
        return Failure(Duplicate(signature));
      }
      children := children[parent := children[parent] + [last]];
      leaves := leaves[elements := value];
      r := Success(());
    }

    /**
     * The walk of `add` along the first `m` elements of `path`: it stops,
     * changing nothing, at a leaf; otherwise it creates the missing nodes.
     */
    method Walk(path: seq<string>, m: nat) returns (blocked: bool)
      requires Valid() && m <= |path|
      modifies this
      ensures leaves == old(leaves)
      ensures blocked == LeafOnPath(old(State()), path, m)
      ensures blocked ==> children == old(children)
      ensures !blocked ==> children == Extend(old(State()), path, m)
    {
      ghost var s := State();
      var i := 0;
      while i < m
        invariant 0 <= i <= m
        invariant leaves == s.leaves
        invariant children == Extend(s, path, i)
        invariant !LeafOnPath(s, path, i)
        invariant IsNode(State(), path[..i])
      {
        if path[..i] in leaves {
          ExtendNoop(s, path, i);
          assert path[..i] in s.leaves;
          return true;
        }
        WalkStep(s, path, i);
        var node := path[..i];
        var element := path[i];
        if element !in children[node] {
          children := children[node := children[node] + [element]][path[..i + 1] := []];
        }
        i := i + 1;
      }
      return false;
    }

    /** Appends one row `[value]` per leaf at or below `p` that `selector` admits, in key order. */
    method AppendValues(p: seq<string>, selector: Selector, values: seq<seq<V>>) returns (r: seq<seq<V>>)
      requires Valid() && IsNode(State(), p)
      ensures r == values + Rows(State(), LeafPaths(State(), p, selector))
      decreases NodesBelow(State(), p)
    {
      ghost var s := State();
      if p in leaves {
        assert LeafPaths(s, p, selector) == [p];
        return values + [[leaves[p]]];
      }
      var keys := children[p];
      assert LeafPaths(s, p, selector) == ChildPaths(s, p, keys, selector);
      r := values;
      var i := 0;
      while i < |keys|
        invariant 0 <= i <= |keys|
        invariant r == values + Rows(s, ChildPaths(s, p, keys[..i], selector))
      {
        var key := keys[i];
        ChildRowsStep(s, p, keys, i, selector);
        ghost var before := r;
        if Selects(selector, key) {
          NodesBelowShrink(s, p, key);
          r := AppendValues(p + [key], All, r);
          assert State() == s;
        }
        ChildRowsNext(s, p, keys, i, selector, values, before, r);
        i := i + 1;
      }
      WholeSlice(keys);
    }

    /** The rows of the leaves at or below `p` that `selector` admits. */
    method Values(p: seq<string>, selector: Selector) returns (r: seq<seq<V>>)
      requires Valid() && IsNode(State(), p)
      ensures r == Rows(State(), LeafPaths(State(), p, selector))
    {
      r := AppendValues(p, selector, []);
    }

    /** The values a pattern selects: a member, a class, a package, or a package with "*" or "**". */
    method GetMatchingRows(pattern: string) returns (r: Result<seq<V>, TrieError>)
      requires Valid()
      ensures r == Matching(State(), pattern)
    {
      var parsed := SignatureToElements(pattern);
      if parsed.Failure? {
        return Failure(InvalidSignature(parsed.error));
      }
      r := MatchElementList(pattern, parsed.value);
    }

    /** `GetMatchingRows` once the pattern is split into its element list `es`. */
    method MatchElementList(pattern: string, es: seq<string>) returns (r: Result<seq<V>, TrieError>)
      requires Valid() && |es| >= 1 && Contains(es[|es| - 1], ":")
      ensures r == MatchingElements(State(), pattern, es)
    {
      ghost var target := QueryTarget(es);
      var elements := es;
      var selector := All;
      var split := SplitElement(elements[|elements| - 1]);
      if split.0 == "wildcard" {
        elements := elements[..|elements| - 1];
        if split.1 == "*" {
          selector := NotPackage;
        }
      }
      assert elements == target.0 && selector == target.1;
      var i := 0;
      while i < |elements|
        invariant 0 <= i <= |elements|
        invariant IsNode(State(), elements[..i])
        invariant !LeafOnPath(State(), elements, i)
      {
        if elements[..i] in leaves {
          // Walking on from a leaf: Python raises AttributeError.
          QueryAtLeaf(State(), elements, i);
          return Failure(LeafInPath(pattern));
        }
        QueryStep(State(), elements, i);
        if elements[i] !in children[elements[..i]] {
          return Success([]);
        }
        i := i + 1;
      }
      WholeSlice(elements);
      var rows := Values(elements, selector);
      r := Success(Flatten(rows));
    }
  }
}
