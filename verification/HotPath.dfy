/** The hot-path check: a static analysis that says which request methods a handler's
    awaits are confined to, and what it promises about every execution of the handler.
 */
module HotPath {
  import opened Common

  datatype Comparison = Eq | NotEq | In | NotIn | OtherComparison

  datatype Connective = And | Or

  /** The node classes that the analysis, or what a handler does, tells apart. */
  datatype Kind =
    | Text(value: string)                  // a string constant
    | Collection                           // a tuple, list or set display; the children are its elements
    | Attribute(name: string)              // `child.name`
    | Compare(ops: seq<Comparison>)        // the left operand, then the comparators
    | BoolOp(connective: Connective)
    | Not
    | Conditional                          // `then if test else otherwise`: the test, then the two values
    | Await
    | If(bodyLength: nat)                  // the test, then the body, then the else branch
    | While(bodyLength: nat)               // the same
    | Def(bodyLength: nat)                 // the arguments, then the body, then the decorators
    | Leave                                // `return` or `raise`
    | Other                                // every other class of node

  datatype Ast = Node(kind: Kind, children: seq<Ast>)

  // ----- which methods a test confines its branch to -----

  predicate IsMethod(node: Ast) {
    node.kind == Attribute("method")
  }

  /** The strings of a literal, or of a nonempty display of one-string literals. */
  function StringConstants(node: Ast): Option<set<string>> {
    match node.kind
    case Text(value) => Some({value})
    case Collection => if node.children == [] then None else OneStringEach(node.children)
    case _ => None
  }

  function OneStringEach(elements: seq<Ast>): Option<set<string>> {
    if elements == [] then Some({})
    else
      var first, rest := StringConstants(elements[0]), OneStringEach(elements[1..]);
      if first.Some? && |first.value| == 1 && rest.Some? then Some(first.value + rest.value) else None
  }

  function MethodNames(test: Ast): Option<set<string>> {
    match test.kind
    case Compare(ops) =>
      if |ops| != 1 || |test.children| != 2 then None
      else
        var left, right := test.children[0], test.children[1];
        if ops[0].Eq? && IsMethod(left) then StringConstants(right)
        else if ops[0].Eq? && IsMethod(right) then StringConstants(left)
        else if ops[0].In? && IsMethod(left) then StringConstants(right)
        else None
    case BoolOp(And) => KnownInAll(test.children)
    case BoolOp(Or) => UnionIfAllKnown(test.children)
    case _ => None
  }

  /** Under `and`: what every operand that says anything about the method allows. */
  function KnownInAll(values: seq<Ast>): Option<set<string>> {
    if values == [] then None
    else
      match (MethodNames(values[0]), KnownInAll(values[1..]))
      case (Some(first), Some(rest)) => Some(first * rest)
      case (Some(first), None) => Some(first)
      case (None, rest) => rest
  }

  /** Under `or`: what some operand allows, if every one of them confines the method. */
  function UnionIfAllKnown(values: seq<Ast>): Option<set<string>> {
    if values == [] then Some({})
    else
      match (MethodNames(values[0]), UnionIfAllKnown(values[1..]))
      case (Some(first), Some(rest)) => Some(first + rest)
      case _ => None
  }

  // ----- what a test means -----

  predicate OccursAt(m: string, s: string, i: nat) {
    i + |m| <= |s| && s[i..i + |m|] == m
  }

  ghost predicate Substring(m: string, s: string) {
    exists i :: OccursAt(m, s, i)
  }

  predicate IsLiteral(node: Ast) {
    node.kind.Text? || node.kind.Collection?
  }

  /** Whether the element of a display may equal `m`, or differ from it. A display is no string; what is not
      a literal may be anything. */
  predicate ElementMay(m: string, element: Ast, equal: bool) {
    match element.kind
    case Text(value) => equal == (value == m)
    case Collection => !equal
    case _ => true
  }

  /** `method in literal` may come out so: an element of a display, but a substring of a string. */
  ghost predicate MayBeIn(m: string, literal: Ast, value: bool) {
    match literal.kind
    case Text(text) => value == Substring(m, text)
    case _ =>
      if value then exists i :: 0 <= i < |literal.children| && ElementMay(m, literal.children[i], true)
      else forall i :: 0 <= i < |literal.children| ==> ElementMay(m, literal.children[i], false)
  }

  /** `left op right` may come out so when the method is `m`. */
  ghost predicate PairMay(op: Comparison, left: Ast, right: Ast, m: string, value: bool) {
    match op
    case Eq => EqualMay(left, right, m, value)
    case NotEq => EqualMay(left, right, m, !value)
    case In => IsMethod(left) && IsLiteral(right) ==> MayBeIn(m, right, value)
    case NotIn => IsMethod(left) && IsLiteral(right) ==> MayBeIn(m, right, !value)
    case OtherComparison => true
  }

  predicate EqualMay(left: Ast, right: Ast, m: string, value: bool) {
    if IsMethod(left) && IsLiteral(right) then value == (right.kind == Text(m))
    else if IsMethod(right) && IsLiteral(left) then value == (left.kind == Text(m))
    else true
  }

  /** A comparison, possibly chained: true when every link is. */
  ghost predicate CompareMay(ops: seq<Comparison>, operands: seq<Ast>, m: string, value: bool)
    requires |operands| == |ops| + 1
  {
    if value then forall i :: 0 <= i < |ops| ==> PairMay(ops[i], operands[i], operands[i + 1], m, true)
    else exists i :: 0 <= i < |ops| && PairMay(ops[i], operands[i], operands[i + 1], m, false)
  }

  /** Whether some evaluation of a test may come out as `value` for a request with method `m`. Whatever is
      neither the method nor a literal may be anything, each time it is evaluated. */
  ghost predicate May(test: Ast, m: string, value: bool) {
    match test.kind
    case Compare(ops) => |test.children| == |ops| + 1 ==> CompareMay(ops, test.children, m, value)
    case BoolOp(connective) =>
      if value == connective.And? then forall i :: 0 <= i < |test.children| ==> May(test.children[i], m, value)
      else exists i :: 0 <= i < |test.children| && May(test.children[i], m, value)
    case Not => |test.children| == 1 ==> May(test.children[0], m, !value)
    case _ => true
  }

  /** `method in "..."` with a nonempty string literal, where Python looks for a substring. */
  predicate SubstringTest(test: Ast) {
    && test.kind.Compare? && test.kind.ops == [In] && |test.children| == 2
    && IsMethod(test.children[0])
    && test.children[1].kind.Text? && test.children[1].kind.value != ""
  }

  /** No operand of the test, however deep under `and` and `or`, is a substring test. */
  predicate NoSubstringTests(test: Ast) {
    && !SubstringTest(test)
    && (test.kind.BoolOp? ==> forall i :: 0 <= i < |test.children| ==> NoSubstringTests(test.children[i]))
  }

  lemma {:induction false} ElementsAreCovered(elements: seq<Ast>, i: nat)
    requires OneStringEach(elements).Some? && i < |elements|
    ensures IsLiteral(elements[i])
    ensures elements[i].kind.Text? ==> elements[i].kind.value in OneStringEach(elements).value
  {
    if i > 0 {
      ElementsAreCovered(elements[1..], i - 1);
    }
  }

  /** Whatever `and` allows, some operand that confines the method is responsible for. */
  lemma {:induction false} KnownInAllMembers(values: seq<Ast>, m: string)
    requires KnownInAll(values).Some?
    requires forall i :: 0 <= i < |values| && MethodNames(values[i]).Some? ==> m in MethodNames(values[i]).value
    ensures m in KnownInAll(values).value
  {
    if values != [] && KnownInAll(values[1..]).Some? {
      KnownInAllMembers(values[1..], m);
    }
  }

  lemma {:induction false} UnionHasEach(values: seq<Ast>, i: nat)
    requires UnionIfAllKnown(values).Some? && i < |values|
    ensures MethodNames(values[i]).Some? && MethodNames(values[i]).value <= UnionIfAllKnown(values).value
  {
    if i > 0 {
      UnionHasEach(values[1..], i - 1);
    }
  }

  lemma CompareIsSound(test: Ast, m: string)
    requires test.kind.Compare? && !SubstringTest(test)
    requires MethodNames(test).Some? && May(test, m, true)
    ensures m in MethodNames(test).value
  {
    var left, right := test.children[0], test.children[1];
    assert PairMay(test.kind.ops[0], left, right, m, true);
    if test.kind.ops[0].In? && right.kind.Collection? {
      var i :| 0 <= i < |right.children| && ElementMay(m, right.children[i], true);
      ElementsAreCovered(right.children, i);
    }
  }

  /** A test without substring tests is true only for the methods the analysis names. */
  lemma {:induction false} MethodNamesSound(test: Ast, m: string)
    requires NoSubstringTests(test)
    requires MethodNames(test).Some? && May(test, m, true)
    ensures m in MethodNames(test).value
  {
    match test.kind {
      case Compare(_) =>
        CompareIsSound(test, m);
      case BoolOp(And) =>
        forall i | 0 <= i < |test.children| && MethodNames(test.children[i]).Some?
          ensures m in MethodNames(test.children[i]).value
        {
          MethodNamesSound(test.children[i], m);
        }
        KnownInAllMembers(test.children, m);
      case BoolOp(Or) =>
        var i :| 0 <= i < |test.children| && May(test.children[i], m, true);
        UnionHasEach(test.children, i);
        MethodNamesSound(test.children[i], m);
    }
  }

  /** A comparison the analysis takes for a method test confines the method exactly when it is not a
      substring test. */
  lemma ComparisonSoundIff(test: Ast)
    requires test.kind.Compare? && MethodNames(test).Some?
    ensures (forall m :: May(test, m, true) ==> m in MethodNames(test).value) <==> !SubstringTest(test)
  {
    if SubstringTest(test) {
      var s := test.children[1].kind.value;
      assert OccursAt("", s, 0);
      assert May(test, "", true);
    } else {
      forall m | May(test, m, true) ensures m in MethodNames(test).value {
        CompareIsSound(test, m);
      }
    }
  }

  // ----- exactly which methods a test lets through -----

  /** A set of methods: these, or all but these. */
  datatype Methods = Only(names: set<string>) | AllBut(names: set<string>)

  const ANY := AllBut({})
  const NONE := Only({})

  predicate Allows(methods: Methods, m: string) {
    methods.Only? == (m in methods.names)
  }

  function Meet(a: Methods, b: Methods): (r: Methods)
    ensures forall m :: Allows(r, m) <==> Allows(a, m) && Allows(b, m)
  {
    match (a, b)
    case (Only(x), Only(y)) => Only(x * y)
    case (Only(x), AllBut(y)) => Only(x - y)
    case (AllBut(x), Only(y)) => Only(y - x)
    case (AllBut(x), AllBut(y)) => AllBut(x + y)
  }

  function Join(a: Methods, b: Methods): (r: Methods)
    ensures forall m :: Allows(r, m) <==> Allows(a, m) || Allows(b, m)
  {
    match (a, b)
    case (Only(x), Only(y)) => Only(x + y)
    case (Only(x), AllBut(y)) => AllBut(y - x)
    case (AllBut(x), Only(y)) => AllBut(x - y)
    case (AllBut(x), AllBut(y)) => AllBut(x * y)
  }

  function Substrings(s: string): set<string> {
    set i, j | 0 <= i <= j <= |s| :: s[i..j]
  }

  /** The methods for which some evaluation of the test comes out as `value`. */
  function Lets(test: Ast, value: bool): Methods {
    match test.kind
    case Compare(ops) => if |test.children| == |ops| + 1 then LetsCompare(ops, test.children, value) else ANY
    case BoolOp(connective) =>
      if value == connective.And? then LetsAll(test.children, value) else LetsAny(test.children, value)
    case Not => if |test.children| == 1 then Lets(test.children[0], !value) else ANY
    case _ => ANY
  }

  function LetsAll(tests: seq<Ast>, value: bool): Methods {
    if tests == [] then ANY else Meet(Lets(tests[0], value), LetsAll(tests[1..], value))
  }

  function LetsAny(tests: seq<Ast>, value: bool): Methods {
    if tests == [] then NONE else Join(Lets(tests[0], value), LetsAny(tests[1..], value))
  }

  function LetsCompare(ops: seq<Comparison>, operands: seq<Ast>, value: bool): Methods
    requires |operands| == |ops| + 1
  {
    if ops == [] then if value then ANY else NONE
    else
      var first, rest := LetsPair(ops[0], operands[0], operands[1], value), LetsCompare(ops[1..], operands[1..], value);
      if value then Meet(first, rest) else Join(first, rest)
  }

  function LetsPair(op: Comparison, left: Ast, right: Ast, value: bool): Methods {
    match op
    case Eq => LetsEqual(left, right, value)
    case NotEq => LetsEqual(left, right, !value)
    case In => if IsMethod(left) && IsLiteral(right) then LetsIn(right, value) else ANY
    case NotIn => if IsMethod(left) && IsLiteral(right) then LetsIn(right, !value) else ANY
    case OtherComparison => ANY
  }

  function These(names: set<string>, value: bool): Methods {
    if value then Only(names) else AllBut(names)
  }

  function LetsEqual(left: Ast, right: Ast, value: bool): Methods {
    if IsMethod(left) && IsLiteral(right) then These(TextOf(right), value)
    else if IsMethod(right) && IsLiteral(left) then These(TextOf(left), value)
    else ANY
  }

  function TextOf(literal: Ast): set<string> {
    if literal.kind.Text? then {literal.kind.value} else {}
  }

  function LetsIn(literal: Ast, value: bool): Methods {
    if literal.kind.Text? then These(Substrings(literal.kind.value), value)
    else if value && exists e :: e in literal.children && !IsLiteral(e) then ANY
    else These(set e | e in literal.children && e.kind.Text? :: e.kind.value, value)
  }

  lemma SubstringsAre(s: string, m: string)
    ensures m in Substrings(s) <==> Substring(m, s)
  {
    if Substring(m, s) {
      var i: nat :| OccursAt(m, s, i);
      assert s[i..i + |m|] == m;
    }
    if m in Substrings(s) {
      var i, j :| 0 <= i <= j <= |s| && s[i..j] == m;
      assert OccursAt(m, s, i);
    }
  }

  lemma LetsInIff(literal: Ast, m: string, value: bool)
    requires IsLiteral(literal)
    ensures Allows(LetsIn(literal, value), m) <==> MayBeIn(m, literal, value)
  {
    if literal.kind.Text? {
      SubstringsAre(literal.kind.value, m);
    } else {
      var elements := literal.children;
      if value {
        if e :| e in elements && ElementMay(m, e, true) {
          var i :| 0 <= i < |elements| && elements[i] == e;
          assert ElementMay(m, elements[i], true);
        }
      } else {
        assert forall e :: e in elements ==> exists i :: 0 <= i < |elements| && elements[i] == e;
        assert MayBeIn(m, literal, value) <==> forall e :: e in elements ==> ElementMay(m, e, false);
      }
    }
  }

  lemma LetsPairIff(op: Comparison, left: Ast, right: Ast, m: string, value: bool)
    ensures Allows(LetsPair(op, left, right, value), m) <==> PairMay(op, left, right, m, value)
  {
    if IsLiteral(right) {
      LetsInIff(right, m, value);
      LetsInIff(right, m, !value);
    }
  }

  lemma {:induction false} LetsCompareIff(ops: seq<Comparison>, operands: seq<Ast>, m: string, value: bool)
    requires |operands| == |ops| + 1
    ensures Allows(LetsCompare(ops, operands, value), m) <==> CompareMay(ops, operands, m, value)
  {
    if ops != [] {
      LetsPairIff(ops[0], operands[0], operands[1], m, value);
      LetsCompareIff(ops[1..], operands[1..], m, value);
      CompareMayStep(ops, operands, m, value);
    }
  }

  lemma CompareMayStep(ops: seq<Comparison>, operands: seq<Ast>, m: string, value: bool)
    requires |operands| == |ops| + 1 && ops != []
    ensures
      var first := PairMay(ops[0], operands[0], operands[1], m, value);
      var rest := CompareMay(ops[1..], operands[1..], m, value);
      CompareMay(ops, operands, m, value) <==> if value then first && rest else first || rest
  {
    var ops', operands' := ops[1..], operands[1..];
    assert forall i :: 0 <= i < |ops'| ==> ops'[i] == ops[i + 1] && operands'[i] == operands[i + 1];
    if value {
      if CompareMay(ops', operands', m, true) && PairMay(ops[0], operands[0], operands[1], m, true) {
        forall i | 0 <= i < |ops| ensures PairMay(ops[i], operands[i], operands[i + 1], m, true) {
          if i > 0 {
            assert PairMay(ops'[i - 1], operands'[i - 1], operands'[i], m, true);
          }
        }
      }
      if CompareMay(ops, operands, m, true) {
        forall i | 0 <= i < |ops'| ensures PairMay(ops'[i], operands'[i], operands'[i + 1], m, true) {
          assert PairMay(ops[i + 1], operands[i + 1], operands[i + 2], m, true);
        }
      }
    } else {
      if i :| 0 <= i < |ops'| && PairMay(ops'[i], operands'[i], operands'[i + 1], m, false) {
        assert PairMay(ops[i + 1], operands[i + 1], operands[i + 2], m, false);
      }
      if i :| 0 < i < |ops| && PairMay(ops[i], operands[i], operands[i + 1], m, false) {
        assert PairMay(ops'[i - 1], operands'[i - 1], operands'[i], m, false);
      }
    }
  }

  /** A test can come out as `value` for a method exactly when what it lets through has the method. */
  lemma {:induction false} LetsIff(test: Ast, m: string, value: bool)
    ensures Allows(Lets(test, value), m) <==> May(test, m, value)
    decreases test
  {
    match test.kind {
      case Compare(ops) =>
        if |test.children| == |ops| + 1 {
          LetsCompareIff(ops, test.children, m, value);
        }
      case BoolOp(_) =>
        LetsAllIff(test.children, m, value);
        LetsAnyIff(test.children, m, value);
      case Not =>
        if |test.children| == 1 {
          LetsIff(test.children[0], m, !value);
        }
      case _ =>
    }
  }

  lemma {:induction false} LetsAllIff(tests: seq<Ast>, m: string, value: bool)
    ensures Allows(LetsAll(tests, value), m) <==> forall i :: 0 <= i < |tests| ==> May(tests[i], m, value)
    decreases tests
  {
    if tests != [] {
      var rest := tests[1..];
      LetsIff(tests[0], m, value);
      LetsAllIff(rest, m, value);
      assert forall i :: 0 <= i < |rest| ==> rest[i] == tests[i + 1];
      assert forall i :: 0 < i < |tests| ==> tests[i] == rest[i - 1];
    }
  }

  lemma {:induction false} LetsAnyIff(tests: seq<Ast>, m: string, value: bool)
    ensures Allows(LetsAny(tests, value), m) <==> exists i :: 0 <= i < |tests| && May(tests[i], m, value)
    decreases tests
  {
    if tests != [] {
      var rest := tests[1..];
      LetsIff(tests[0], m, value);
      LetsAnyIff(rest, m, value);
      if i :| 0 <= i < |rest| && May(rest[i], m, value) {
        assert May(tests[i + 1], m, value);
      }
      if i :| 0 < i < |tests| && May(tests[i], m, value) {
        assert May(rest[i - 1], m, value);
      }
    }
  }

  /** A test that names methods lets only finitely many through. */
  lemma {:induction false} NamedIsConfined(test: Ast)
    requires MethodNames(test).Some?
    ensures Lets(test, true).Only?
    decreases test
  {
    match test.kind {
      case Compare(ops) =>
        assert LetsCompare(ops[1..], test.children[1..], true) == ANY;
        if ops[0].In? && test.children[1].kind.Collection? {
          var elements := test.children[1].children;
          forall e | e in elements ensures IsLiteral(e) {
            var i :| 0 <= i < |elements| && elements[i] == e;
            ElementsAreCovered(elements, i);
          }
        }
      case BoolOp(And) => KnownIsConfined(test.children);
      case BoolOp(Or) => AllKnownIsConfined(test.children);
    }
  }

  lemma {:induction false} KnownIsConfined(tests: seq<Ast>)
    requires KnownInAll(tests).Some?
    ensures LetsAll(tests, true).Only?
    decreases tests
  {
    if MethodNames(tests[0]).Some? {
      NamedIsConfined(tests[0]);
    } else {
      KnownIsConfined(tests[1..]);
    }
  }

  lemma {:induction false} AllKnownIsConfined(tests: seq<Ast>)
    requires UnionIfAllKnown(tests).Some?
    ensures LetsAny(tests, true).Only?
    decreases tests
  {
    if tests != [] {
      NamedIsConfined(tests[0]);
      AllKnownIsConfined(tests[1..]);
    }
  }

  /** What the analysis reads off a test, however compound, confines the method exactly when it covers
      everything the test lets through. */
  lemma TestSoundIff(test: Ast)
    requires MethodNames(test).Some?
    ensures Lets(test, true).Only?
    ensures (forall m :: May(test, m, true) ==> m in MethodNames(test).value)
      <==> Lets(test, true).names <= MethodNames(test).value
  {
    NamedIsConfined(test);
    forall m ensures m in Lets(test, true).names <==> May(test, m, true) {
      LetsIff(test, m, true);
    }
  }

  // ----- nodes by position -----

  /** A node's identity: the child indices on the way down from the root. */
  type Path = seq<nat>

  predicate InTree(root: Ast, path: Path) {
    path == [] || (path[0] < |root.children| && InTree(root.children[path[0]], path[1..]))
  }

  function At(root: Ast, path: Path): Ast
    requires InTree(root, path)
  {
    if path == [] then root else At(root.children[path[0]], path[1..])
  }

  function Under(k: nat, paths: set<Path>): set<Path> {
    set p | p in paths :: [k] + p
  }

  /** Every node of the tree. */
  function Walk(root: Ast): set<Path>
    decreases root, 1
  {
    {[]} + WalkChildren(root, |root.children|)
  }

  function WalkChildren(root: Ast, n: nat): set<Path>
    requires n <= |root.children|
    decreases root, 0, n
  {
    if n == 0 then {} else WalkChildren(root, n - 1) + Under(n - 1, Walk(root.children[n - 1]))
  }

  lemma {:induction false} WalkIsTheTree(root: Ast, path: Path)
    ensures path in Walk(root) <==> InTree(root, path)
    decreases root, 1
  {
    if path != [] {
      WalkChildrenIsTheTree(root, |root.children|, path);
    } else {
      assert path == [];
    }
  }

  lemma {:induction false} WalkChildrenIsTheTree(root: Ast, n: nat, path: Path)
    requires n <= |root.children|
    ensures path in WalkChildren(root, n) <==> path != [] && path[0] < n && InTree(root.children[path[0]], path[1..])
    decreases root, 0, n
  {
    if n > 0 {
      WalkChildrenIsTheTree(root, n - 1, path);
      UnderMember(n - 1, Walk(root.children[n - 1]), path);
      if path != [] {
        WalkIsTheTree(root.children[n - 1], path[1..]);
      }
    }
  }

  lemma UnderMember(k: nat, paths: set<Path>, path: Path)
    ensures path in Under(k, paths) <==> path != [] && path[0] == k && path[1..] in paths
  {
    if path != [] && path[0] == k && path[1..] in paths {
      assert path == [k] + path[1..];
    }
  }

  predicate IsAwait(root: Ast, path: Path) {
    InTree(root, path) && At(root, path).kind.Await?
  }

  /** `node` is an `if` whose test names at least one method. */
  predicate MethodBranch(node: Ast) {
    && node.kind.If? && node.children != []
    && MethodNames(node.children[0]).Some? && MethodNames(node.children[0]).value != {}
  }

  /** `inner` lies in the body of the `if` at `outer`. */
  predicate InBody(root: Ast, outer: Path, inner: Path) {
    && InTree(root, outer) && At(root, outer).kind.If? && At(root, outer).children != []
    && |outer| < |inner| && inner[..|outer|] == outer
    && 1 <= inner[|outer|] <= At(root, outer).kind.bodyLength
  }

  /** The `if` at `guard` confines the await at `await` to the methods its test names. */
  predicate Guards(root: Ast, guard: Path, await: Path) {
    InBody(root, guard, await) && MethodBranch(At(root, guard))
  }

  predicate IsGuarded(root: Ast, await: Path) {
    exists g :: g in Walk(root) && Guards(root, g, await)
  }

  /** What the analysis answers: the methods of every branch that guards an await, if every await is guarded. */
  ghost predicate Verdict(root: Ast, answer: Option<set<string>>) {
    && (answer.Some? <==> forall a :: IsAwait(root, a) ==> IsGuarded(root, a))
    && (answer.Some? ==> forall name :: name in answer.value <==> IsNamed(root, name))
  }

  /** Some branch that guards an await names this method. */
  ghost predicate IsNamed(root: Ast, name: string) {
    exists g, a :: IsAwait(root, a) && Guards(root, g, a) && name in MethodNames(At(root, g).children[0]).value
  }

  /** The awaits among `awaits` that the node at `g` guards. */
  function Inner(root: Ast, awaits: set<Path>, g: Path): set<Path> {
    set a | a in awaits && Guards(root, g, a)
  }

  /** The methods the node at `g` contributes: those its test names, if it guards any await. */
  function Contribution(root: Ast, awaits: set<Path>, g: Path): set<string> {
    if InTree(root, g) && MethodBranch(At(root, g)) && Inner(root, awaits, g) != {}
    then MethodNames(At(root, g).children[0]).value
    else {}
  }

  ghost function AllInner(root: Ast, awaits: set<Path>, done: set<Path>): set<Path> {
    set g, a | g in done && a in Inner(root, awaits, g) :: a
  }

  ghost function AllContributions(root: Ast, awaits: set<Path>, done: set<Path>): set<string> {
    set g, name | g in done && name in Contribution(root, awaits, g) :: name
  }

  lemma OneMoreNode(root: Ast, awaits: set<Path>, done: set<Path>, g: Path)
    ensures AllInner(root, awaits, done + {g}) == AllInner(root, awaits, done) + Inner(root, awaits, g)
    ensures AllContributions(root, awaits, done + {g}) ==
        AllContributions(root, awaits, done) + Contribution(root, awaits, g)
  {
  }

  /** `_method_guarded_awaits`. */
  method MethodGuardedAwaits(handler: Ast) returns (answer: Option<set<string>>)
    ensures Verdict(handler, answer)
  {
    var nodes := Walk(handler);
    forall p ensures p in nodes <==> InTree(handler, p) {
      WalkIsTheTree(handler, p);
    }
    var awaits := set p | p in nodes && IsAwait(handler, p);
    if awaits == {} {
      assert forall a :: IsAwait(handler, a) ==> a in awaits;
      return Some({});
    }
    var methods: set<string>, guarded: set<Path> := {}, {};
    var left := nodes;
    while left != {}
      invariant left <= nodes
      invariant guarded == AllInner(handler, awaits, nodes - left)
      invariant methods == AllContributions(handler, awaits, nodes - left)
      decreases left
    {
      var node :| node in left;
      OneMoreNode(handler, awaits, nodes - left, node);
      assert nodes - (left - {node}) == (nodes - left) + {node};
      left := left - {node};
      if MethodBranch(At(handler, node)) {
        var inner := set p | p in awaits && InBody(handler, node, p);
        assert inner == Inner(handler, awaits, node);
        if inner != {} {
          guarded := guarded + inner;
          methods := methods + MethodNames(At(handler, node).children[0]).value;
        }
      } else {
        assert Inner(handler, awaits, node) == {};
      }
    }
    answer := if guarded == awaits then Some(methods) else None;
    assert nodes - left == nodes;
    CollectedIsVerdict(handler, awaits);
  }

  lemma CollectedIsVerdict(root: Ast, awaits: set<Path>)
    requires forall a :: a in awaits <==> IsAwait(root, a)
    ensures Verdict(root, if AllInner(root, awaits, Walk(root)) == awaits then
        Some(AllContributions(root, awaits, Walk(root))) else None)
  {
    forall a ensures a in AllInner(root, awaits, Walk(root)) <==> IsAwait(root, a) && IsGuarded(root, a) {
      if IsAwait(root, a) && IsGuarded(root, a) {
        var g :| g in Walk(root) && Guards(root, g, a);
        assert a in Inner(root, awaits, g);
      }
    }
    forall name ensures name in AllContributions(root, awaits, Walk(root)) <==> IsNamed(root, name) {
      if IsNamed(root, name) {
        var g, a :| IsAwait(root, a) && Guards(root, g, a) && name in MethodNames(At(root, g).children[0]).value;
        WalkIsTheTree(root, g);
        assert a in Inner(root, awaits, g);
        assert name in Contribution(root, awaits, g);
      }
      if name in AllContributions(root, awaits, Walk(root)) {
        var g :| g in Walk(root) && name in Contribution(root, awaits, g);
        var a :| a in Inner(root, awaits, g);
      }
    }
  }

  // ----- what a handler does -----

  /** Whether a statement may be over with control going on behind it, under `m`. */
  ghost predicate MayComplete(statement: Ast, m: string) {
    match statement.kind
    case Leave => false
    case If(n) =>
      || statement.children == []
      || (&& May(statement.children[0], m, true)
          && forall j :: 1 <= j <= n && j < |statement.children| ==> MayComplete(statement.children[j], m))
      || (&& May(statement.children[0], m, false)
          && forall j :: n < j < |statement.children| && j > 0 ==> MayComplete(statement.children[j], m))
    case _ => true
  }

  /** Statements `from` up to `to` of a node may all be over, one after the other. */
  ghost predicate MayPass(node: Ast, from: nat, to: nat, m: string)
    requires to <= |node.children|
  {
    forall j :: from <= j < to ==> MayComplete(node.children[j], m)
  }

  /** Control may come from a node to its child `k`: into a branch when the test comes out so and the statements
      before it are over, to an operand when the ones before it have not settled the matter. */
  ghost predicate MayEnter(parent: Ast, k: nat, m: string)
    requires k < |parent.children|
  {
    match parent.kind
    case If(n) => MayEnterBranch(parent, n, k, m)
    case While(n) => MayEnterBranch(parent, n, k, m)
    case Def(n) => 1 <= k <= n ==> MayPass(parent, 1, k, m)
    case Conditional => k > 0 ==> May(parent.children[0], m, k == 1)
    case BoolOp(connective) => forall j :: 0 <= j < k ==> May(parent.children[j], m, connective.And?)
    case _ => true
  }

  ghost predicate MayEnterBranch(parent: Ast, n: nat, k: nat, m: string)
    requires k < |parent.children|
  {
    k > 0 ==> May(parent.children[0], m, k <= n) && MayPass(parent, if k <= n then 1 else n + 1, k, m)
  }

  function Parent(path: Path): Path
    requires path != []
  {
    path[..|path|-1]
  }

  /** The node at `path` may be entered from its parent. */
  ghost predicate Entered(root: Ast, m: string, path: Path)
    requires InTree(root, path) && path != []
  {
    ParentInTree(root, path);
    MayEnter(At(root, Parent(path)), path[|path|-1], m)
  }

  /** One execution of the handler for a request with method `m`, as the nodes control reaches, in order.
      A node is reached from its parent, reached before it. Loops and exceptions only ever choose among these. */
  ghost predicate Execution(root: Ast, m: string, visits: seq<Path>) {
    forall i :: 0 <= i < |visits| ==> Visited(root, m, visits, i)
  }

  ghost predicate Visited(root: Ast, m: string, visits: seq<Path>, i: nat)
    requires i < |visits|
  {
    && InTree(root, visits[i])
    && (visits[i] != [] ==> Entered(root, m, visits[i]) && Parent(visits[i]) in visits[..i])
  }

  lemma {:induction false} PrefixInTree(root: Ast, path: Path, n: nat)
    requires InTree(root, path) && n <= |path|
    ensures InTree(root, path[..n])
  {
    if n > 0 {
      PrefixInTree(root.children[path[0]], path[1..], n - 1);
      assert path[..n][1..] == path[1..][..n - 1];
    }
  }

  lemma {:induction false} ParentInTree(root: Ast, path: Path)
    requires InTree(root, path) && path != []
    ensures InTree(root, Parent(path))
    ensures path[|path|-1] < |At(root, Parent(path)).children|
  {
    if |path| > 1 {
      ParentInTree(root.children[path[0]], path[1..]);
      assert Parent(path)[1..] == Parent(path[1..]);
    }
  }

  /** Every ancestor of a node that is reached was reached, and entered, before it. */
  lemma {:induction false} AncestorsAreEntered(root: Ast, m: string, visits: seq<Path>, i: nat, n: nat)
    requires Execution(root, m, visits) && i < |visits| && 0 < n <= |visits[i]|
    ensures InTree(root, visits[i][..n]) && Entered(root, m, visits[i][..n])
    decreases i
  {
    assert Visited(root, m, visits, i);
    if n == |visits[i]| {
      assert visits[i][..n] == visits[i];
    } else {
      var j :| 0 <= j < i && visits[j] == Parent(visits[i]);
      AncestorsAreEntered(root, m, visits, j, n);
      assert visits[j][..n] == visits[i][..n];
    }
  }

  // ----- exactly which methods get where -----

  /** The methods under which a statement may be over. */
  function Completes(statement: Ast): Methods
    decreases statement, 1
  {
    match statement.kind
    case Leave => NONE
    case If(n) =>
      if statement.children == [] then ANY
      else
        var test, cut := statement.children[0], Min(n + 1, |statement.children|);
        Join(Meet(Lets(test, true), Passes(statement, 1, cut)),
             Meet(Lets(test, false), Passes(statement, cut, |statement.children|)))
    case _ => ANY
  }

  /** The methods under which statements `from` up to `to` of a node may all be over. */
  function Passes(node: Ast, from: nat, to: nat): Methods
    requires from <= to <= |node.children|
    decreases node, 0, to - from
  {
    if from == to then ANY else Meet(Completes(node.children[from]), Passes(node, from + 1, to))
  }

  /** The methods under which control may come from a node to its child `k`. */
  function Admits(parent: Ast, k: nat): Methods
    requires k < |parent.children|
  {
    match parent.kind
    case If(n) => AdmitsBranch(parent, n, k)
    case While(n) => AdmitsBranch(parent, n, k)
    case Def(n) => if 1 <= k <= n then Passes(parent, 1, k) else ANY
    case Conditional => if k > 0 then Lets(parent.children[0], k == 1) else ANY
    case BoolOp(connective) => LetsAll(parent.children[..k], connective.And?)
    case _ => ANY
  }

  function AdmitsBranch(parent: Ast, n: nat, k: nat): Methods
    requires k < |parent.children|
  {
    if k == 0 then ANY
    else Meet(Lets(parent.children[0], k <= n), Passes(parent, if k <= n then 1 else n + 1, k))
  }

  /** A statement may be over under a method exactly when the tests inside it let the method pass every
      `return` and `raise`. */
  lemma {:induction false} CompletesIff(statement: Ast, m: string)
    ensures Allows(Completes(statement), m) <==> MayComplete(statement, m)
    decreases statement, 1
  {
    match statement.kind {
      case If(n) =>
        if statement.children != [] {
          var parts, cut := statement.children, Min(n + 1, |statement.children|);
          LetsIff(parts[0], m, true);
          LetsIff(parts[0], m, false);
          PassesIff(statement, 1, cut, m);
          PassesIff(statement, cut, |parts|, m);
        }
      case _ =>
    }
  }

  lemma {:induction false} PassesIff(node: Ast, from: nat, to: nat, m: string)
    requires from <= to <= |node.children|
    ensures Allows(Passes(node, from, to), m) <==> MayPass(node, from, to, m)
    decreases node, 0, to - from
  {
    if from < to {
      CompletesIff(node.children[from], m);
      PassesIff(node, from + 1, to, m);
    }
  }

  lemma AdmitsIff(parent: Ast, k: nat, m: string)
    requires k < |parent.children|
    ensures Allows(Admits(parent, k), m) <==> MayEnter(parent, k, m)
  {
    match parent.kind {
      case If(n) => AdmitsBranchIff(parent, n, k, m);
      case While(n) => AdmitsBranchIff(parent, n, k, m);
      case Def(n) =>
        if 1 <= k <= n {
          PassesIff(parent, 1, k, m);
        }
      case Conditional => LetsIff(parent.children[0], m, k == 1);
      case BoolOp(connective) =>
        var before := parent.children[..k];
        LetsAllIff(before, m, connective.And?);
        assert forall j :: 0 <= j < k ==> before[j] == parent.children[j];
      case _ =>
    }
  }

  lemma AdmitsBranchIff(parent: Ast, n: nat, k: nat, m: string)
    requires k < |parent.children|
    ensures Allows(AdmitsBranch(parent, n, k), m) <==> MayEnterBranch(parent, n, k, m)
  {
    if k > 0 {
      LetsIff(parent.children[0], m, k <= n);
      PassesIff(parent, if k <= n then 1 else n + 1, k, m);
    }
  }

  // ----- exactly when the verdict is right -----

  /** Some execution under `m` reaches the node at `a`. */
  ghost predicate Reaches(root: Ast, m: string, a: Path) {
    exists visits :: Execution(root, m, visits) && a in visits
  }

  /** The methods under which every node on the way down to `a` may be entered. */
  function LetsTo(root: Ast, a: Path): Methods
    requires InTree(root, a)
  {
    if a == [] then ANY
    else
      ParentInTree(root, a);
      Meet(LetsTo(root, Parent(a)), Admits(At(root, Parent(a)), a[|a|-1]))
  }

  lemma ReachesStep(root: Ast, m: string, a: Path)
    requires InTree(root, a) && a != []
    ensures Reaches(root, m, a) <==> Reaches(root, m, Parent(a)) && Entered(root, m, a)
  {
    if Reaches(root, m, a) {
      var visits :| Execution(root, m, visits) && a in visits;
      var i :| 0 <= i < |visits| && visits[i] == a;
      assert Visited(root, m, visits, i);
      assert Parent(a) in visits;
    }
    if Reaches(root, m, Parent(a)) && Entered(root, m, a) {
      var visits :| Execution(root, m, visits) && Parent(a) in visits;
      OneMoreVisit(root, m, visits, a);
      assert a in visits + [a];
    }
  }

  lemma OneMoreVisit(root: Ast, m: string, visits: seq<Path>, a: Path)
    requires Execution(root, m, visits) && InTree(root, a) && a != [] && Entered(root, m, a) && Parent(a) in visits
    ensures Execution(root, m, visits + [a])
  {
    var longer := visits + [a];
    forall i | 0 <= i < |longer| ensures Visited(root, m, longer, i) {
      if i < |visits| {
        assert Visited(root, m, visits, i);
        assert longer[..i] == visits[..i];
      } else {
        assert longer[..i] == visits;
      }
    }
  }

  /** A node is reached under a method exactly when every node around it lets the method on towards it. */
  lemma {:induction false} ReachesIff(root: Ast, m: string, a: Path)
    requires InTree(root, a)
    ensures Reaches(root, m, a) <==> Allows(LetsTo(root, a), m)
    decreases |a|
  {
    if a == [] {
      assert Execution(root, m, [a]) && a in [a];
    } else {
      ParentInTree(root, a);
      ReachesIff(root, m, Parent(a));
      ReachesStep(root, m, a);
      AdmitsIff(At(root, Parent(a)), a[|a|-1], m);
    }
  }

  lemma {:induction false} GuardedIsConfined(root: Ast, g: Path, a: Path)
    requires InTree(root, a) && Guards(root, g, a)
    ensures LetsTo(root, a).Only?
    decreases |a|
  {
    ParentInTree(root, a);
    if Parent(a) == g {
      NamedIsConfined(At(root, g).children[0]);
    } else {
      assert Parent(a)[..|g|] == a[..|g|] && Parent(a)[|g|] == a[|g|];
      GuardedIsConfined(root, g, Parent(a));
    }
  }

  /** No execution under a method outside `names` reaches an await. */
  ghost predicate AwaitsOnlyUnder(root: Ast, names: set<string>) {
    forall m, a :: m !in names && IsAwait(root, a) ==> !Reaches(root, m, a)
  }

  /** The answer for a handler is right exactly when, for every await, the methods that get to it are among
      the methods named. */
  lemma AnswerIsRightIff(root: Ast, names: set<string>)
    requires Verdict(root, Some(names))
    ensures forall a :: IsAwait(root, a) ==> LetsTo(root, a).Only?
    ensures AwaitsOnlyUnder(root, names) <==> forall a :: IsAwait(root, a) ==> LetsTo(root, a).names <= names
  {
    forall a | IsAwait(root, a) ensures LetsTo(root, a).Only? {
      var g :| g in Walk(root) && Guards(root, g, a);
      GuardedIsConfined(root, g, a);
    }
    forall m, a | IsAwait(root, a) ensures Reaches(root, m, a) <==> m in LetsTo(root, a).names {
      ReachesIff(root, m, a);
    }
  }

  /** If the analysis names the methods `names`, no execution under any other method reaches an await. */
  lemma {:induction false} OtherMethodsNeverAwait(root: Ast, names: set<string>, m: string, visits: seq<Path>)
    requires Verdict(root, Some(names)) && m !in names
    requires forall p :: InTree(root, p) && MethodBranch(At(root, p)) ==> NoSubstringTests(At(root, p).children[0])
    requires Execution(root, m, visits)
    ensures forall i :: 0 <= i < |visits| ==> !IsAwait(root, visits[i])
  {
    forall i | 0 <= i < |visits| ensures !IsAwait(root, visits[i]) {
      if IsAwait(root, visits[i]) {
        var a := visits[i];
        assert IsGuarded(root, a);
        var g :| g in Walk(root) && Guards(root, g, a);
        var entry := a[..|g| + 1];
        AncestorsAreEntered(root, m, visits, i, |g| + 1);
        assert Parent(entry) == g;
        MethodNamesSound(At(root, g).children[0], m);
        assert false;
      }
    }
  }

  // ----- the substring test -----

  const METHOD := Node(Attribute("method"), [Node(Other, [])])
  const REGISTER := Node(Text("REGISTER"), [])

  /** The hole in the analysis: `request.method in "REGISTER"` is read as naming REGISTER, yet it is
      true for a method REG. */
  lemma SubstringTestSlipsThrough()
    ensures
      var test := Node(Compare([In]), [METHOD, REGISTER]);
      MethodNames(test) == Some({"REGISTER"}) && May(test, "REG", true)
  {
    assert OccursAt("REG", "REGISTER", 0);
  }

  /** `if request.method != "REGISTER": return`, and then an await under the substring test. */
  const RETURNS_EARLY := Node(Def(2), [
    Node(Other, []),
    Node(If(1), [Node(Compare([NotEq]), [METHOD, REGISTER]), Node(Leave, [])]),
    Node(If(1), [Node(Compare([In]), [METHOD, REGISTER]), Node(Await, [])])])

  lemma OneLink(op: Comparison, left: Ast, right: Ast, m: string, value: bool)
    ensures May(Node(Compare([op]), [left, right]), m, value) <==> PairMay(op, left, right, m, value)
  {
    var test := Node(Compare([op]), [left, right]);
    assert test.kind.ops[0] == op && test.children[0] == left && test.children[1] == right;
    if PairMay(op, left, right, m, value) {
      assert forall i :: 0 <= i < 1 ==> PairMay([op][i], [left, right][i], [left, right][i + 1], m, value);
    }
    assert May(test, m, value) == CompareMay([op], [left, right], m, value);
  }

  lemma EarlyReturnTurnsAway(m: string)
    ensures MayEnter(RETURNS_EARLY, 2, m) <==> m == "REGISTER"
    ensures m == "REGISTER" ==> MayEnter(RETURNS_EARLY.children[2], 1, m)
  {
    var early, late := RETURNS_EARLY.children[1], RETURNS_EARLY.children[2];
    assert MayPass(RETURNS_EARLY, 1, 2, m) <==> m == "REGISTER" by {
      OneLink(NotEq, METHOD, REGISTER, m, false);
      assert !MayComplete(early.children[1], m);
      assert MayComplete(early, m) <==> m == "REGISTER";
    }
    OneLink(In, METHOD, REGISTER, m, true);
    assert OccursAt("REGISTER", "REGISTER", 0);
  }

  /** Behind the early return the hole is closed: only REGISTER gets to the await. */
  lemma EarlyReturnConfines(m: string)
    ensures Reaches(RETURNS_EARLY, m, [2, 1]) <==> m == "REGISTER"
  {
    var start: Path, branch: Path, await: Path := [], [2], [2, 1];
    EarlyReturnTurnsAway(m);
    assert Parent(branch) == start && Parent(await) == branch;
    assert At(RETURNS_EARLY, branch) == RETURNS_EARLY.children[2];
    ReachesStep(RETURNS_EARLY, m, await);
    ReachesStep(RETURNS_EARLY, m, branch);
    assert Execution(RETURNS_EARLY, m, [start]) && start in [start];
  }
}
