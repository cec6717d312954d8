/** What the hot-path check does not miss: on plain tests the methods it reads off are exactly the methods the test
    lets through, so its answer for a handler can be told from what the tests mean.
 */
module HotPathRecognition {
  import opened Common
  import opened HotPath

  /** An expression that says nothing about the method, whichever way it comes out. */
  predicate Silent(test: Ast) {
    match test.kind
    case Compare(ops) => ops != [] && forall i :: 0 <= i < |test.children| ==> !IsMethod(test.children[i])
    case BoolOp(_) => test.children != [] && forall i :: 0 <= i < |test.children| ==> Silent(test.children[i])
    case Not => forall i :: 0 <= i < |test.children| ==> Silent(test.children[i])
    case _ => true
  }

  predicate IsText(node: Ast) {
    node.kind.Text?
  }

  /** `method == "..."`, either way round, or `method in` a nonempty display of strings. */
  predicate PlainComparison(test: Ast) {
    && test.kind.Compare? && |test.kind.ops| == 1 && |test.children| == 2
    && var op, left, right := test.kind.ops[0], test.children[0], test.children[1];
       || (op.Eq? && IsMethod(left) && IsText(right))
       || (op.Eq? && IsText(left) && IsMethod(right))
       || (op.In? && IsMethod(left) && right.kind.Collection? && right.children != [] && AllText(right.children))
  }

  predicate AllText(elements: seq<Ast>) {
    forall i :: 0 <= i < |elements| ==> IsText(elements[i])
  }

  /** Built by `and` and `or` from such comparisons and from operands that say nothing about the method. */
  predicate Plain(test: Ast) {
    || PlainComparison(test)
    || Silent(test)
    || (test.kind.BoolOp? && forall i :: 0 <= i < |test.children| ==> Plain(test.children[i]))
  }

  /** The methods of a test that lets finitely many through. */
  function Named(methods: Methods): Option<set<string>> {
    if methods.Only? then Some(methods.names) else None
  }

  /** A test either confines the method or lets everything through. */
  predicate Clear(methods: Methods) {
    methods.Only? || methods == ANY
  }

  // ----- operands that say nothing -----

  lemma {:induction false} SilentPairs(ops: seq<Comparison>, operands: seq<Ast>, value: bool)
    requires |operands| == |ops| + 1 && ops != []
    requires forall i :: 0 <= i < |operands| ==> !IsMethod(operands[i])
    ensures LetsCompare(ops, operands, value) == ANY
  {
    assert LetsPair(ops[0], operands[0], operands[1], value) == ANY;
    if |ops| > 1 {
      SilentPairs(ops[1..], operands[1..], value);
    }
  }

  lemma {:induction false} SilentLetsAny(test: Ast, value: bool)
    requires Silent(test)
    ensures Lets(test, value) == ANY && MethodNames(test) == None
    decreases test
  {
    match test.kind {
      case Compare(ops) =>
        if |test.children| == |ops| + 1 {
          SilentPairs(ops, test.children, value);
        }
      case BoolOp(_) => SilentOperands(test.children, value);
      case Not =>
        if |test.children| == 1 {
          SilentLetsAny(test.children[0], !value);
        }
      case _ =>
    }
  }

  lemma {:induction false} SilentOperands(tests: seq<Ast>, value: bool)
    requires forall i :: 0 <= i < |tests| ==> Silent(tests[i])
    ensures LetsAll(tests, value) == ANY && KnownInAll(tests) == None
    ensures tests != [] ==> LetsAny(tests, value) == ANY && UnionIfAllKnown(tests) == None
    decreases tests
  {
    if tests != [] {
      SilentLetsAny(tests[0], value);
      SilentOperands(tests[1..], value);
    }
  }

  // ----- comparisons -----

  function Texts(elements: seq<Ast>): set<string> {
    set e | e in elements && e.kind.Text? :: e.kind.value
  }

  lemma TextsCons(elements: seq<Ast>)
    requires elements != [] && IsText(elements[0])
    ensures Texts(elements) == {elements[0].kind.value} + Texts(elements[1..])
  {
    var rest := elements[1..];
    forall v | v in Texts(elements) ensures v == elements[0].kind.value || v in Texts(rest) {
      var e :| e in elements && e.kind.Text? && e.kind.value == v;
      if e != elements[0] {
        var i :| 0 <= i < |elements| && elements[i] == e;
        assert rest[i - 1] == e;
      }
    }
    assert elements[0] in elements;
    assert forall e :: e in rest ==> e in elements;
  }

  lemma {:induction false} DisplayIsRead(elements: seq<Ast>)
    requires AllText(elements)
    ensures OneStringEach(elements) == Some(Texts(elements))
  {
    if elements == [] {
      assert Texts(elements) == {};
    } else {
      assert IsText(elements[0]);
      assert AllText(elements[1..]);
      DisplayIsRead(elements[1..]);
      TextsCons(elements);
      assert StringConstants(elements[0]) == Some({elements[0].kind.value});
    }
  }

  lemma MeetAny(names: set<string>)
    ensures Meet(Only(names), ANY) == Only(names) == Meet(ANY, Only(names))
  {
  }

  lemma ComparisonIsRead(test: Ast)
    requires PlainComparison(test)
    ensures Lets(test, true).Only? && MethodNames(test) == Some(Lets(test, true).names)
  {
    var op, left, right := test.kind.ops[0], test.children[0], test.children[1];
    var pair := LetsPair(op, left, right, true);
    assert pair.Only? && MethodNames(test) == Some(pair.names) by {
      if op.In? {
        DisplayIsRead(right.children);
        assert forall e :: e in right.children ==> IsText(e);
      }
    }
    assert LetsCompare(test.kind.ops[1..], test.children[1..], true) == ANY;
    assert Lets(test, true) == LetsCompare(test.kind.ops, test.children, true) == Meet(pair, ANY);
    MeetAny(pair.names);
  }

  // ----- every plain test -----

  /** On a plain test the analysis reads off exactly the methods that the test lets through, and nothing when it
      lets all through: it misses no test it could use, under `and` it keeps the common methods, under `or` all. */
  lemma {:induction false} PlainIsRecognised(test: Ast)
    requires Plain(test)
    ensures Clear(Lets(test, true)) && MethodNames(test) == Named(Lets(test, true))
    decreases test
  {
    if PlainComparison(test) {
      ComparisonIsRead(test);
    } else if Silent(test) {
      SilentLetsAny(test, true);
    } else if test.kind.connective.And? {
      AndIsRecognised(test.children);
    } else {
      OrIsRecognised(test.children);
    }
  }

  lemma {:induction false} AndIsRecognised(tests: seq<Ast>)
    requires forall i :: 0 <= i < |tests| ==> Plain(tests[i])
    ensures Clear(LetsAll(tests, true)) && KnownInAll(tests) == Named(LetsAll(tests, true))
    decreases tests
  {
    if tests != [] {
      var first, rest := Lets(tests[0], true), LetsAll(tests[1..], true);
      PlainIsRecognised(tests[0]);
      AndIsRecognised(tests[1..]);
      MeetAny(first.names);
      MeetAny(rest.names);
    }
  }

  lemma {:induction false} OrIsRecognised(tests: seq<Ast>)
    requires forall i :: 0 <= i < |tests| ==> Plain(tests[i])
    ensures Clear(LetsAny(tests, true)) && UnionIfAllKnown(tests) == Named(LetsAny(tests, true))
    decreases tests
  {
    if tests != [] {
      PlainIsRecognised(tests[0]);
      OrIsRecognised(tests[1..]);
    }
  }

  /** Outside plain tests it can miss one: `not request.method != "REGISTER"` lets REGISTER through alone, and is not
      taken for a method test. */
  lemma NegationIsMissed()
    ensures
      var test := Node(Not, [Node(Compare([NotEq]), [METHOD, REGISTER])]);
      MethodNames(test) == None && Lets(test, true) == Only({"REGISTER"})
  {
    var inner := Node(Compare([NotEq]), [METHOD, REGISTER]);
    assert [NotEq][1..] == [] && [METHOD, REGISTER][1..] == [REGISTER];
    assert LetsCompare([], [REGISTER], false) == NONE;
    assert LetsCompare([NotEq], [METHOD, REGISTER], false) ==
           Join(LetsPair(NotEq, METHOD, REGISTER, false), LetsCompare([NotEq][1..], [METHOD, REGISTER][1..], false));
    assert LetsPair(NotEq, METHOD, REGISTER, false) == Only({"REGISTER"});
    assert Lets(inner, false) == Only({"REGISTER"});
  }

  // ----- whole handlers -----

  /** Every `if` of the handler has a plain test. */
  ghost predicate PlainHandler(root: Ast) {
    forall p :: InTree(root, p) && At(root, p).kind.If? && At(root, p).children != [] ==>
                  Plain(At(root, p).children[0])
  }

  /** The way to `a` leads over `g` and on to its child `k`. */
  predicate LeadsOver(g: Path, k: nat, a: Path) {
    g + [k] <= a
  }

  /** The node at `a` is, or lies in, a statement of the body of the `if` at `g`. */
  ghost predicate UnderBody(root: Ast, g: Path, a: Path) {
    && InTree(root, g) && At(root, g).kind.If? && At(root, g).children != []
    && exists k :: 1 <= k <= At(root, g).kind.bodyLength && LeadsOver(g, k, a)
  }

  lemma InBodyIff(root: Ast, g: Path, a: Path)
    ensures InBody(root, g, a) <==> UnderBody(root, g, a)
  {
    if InBody(root, g, a) {
      assert LeadsOver(g, a[|g|], a);
    }
    if UnderBody(root, g, a) {
      var k :| 1 <= k <= At(root, g).kind.bodyLength && LeadsOver(g, k, a);
      assert (g + [k])[|g|] == a[|g|] && a[..|g|] == (g + [k])[..|g|];
    }
  }

  /** The `if` at `g` has the node at `a` in its body, and lets some methods through, but not all. */
  ghost predicate Confines(root: Ast, g: Path, a: Path) {
    && UnderBody(root, g, a)
    && Lets(At(root, g).children[0], true).Only? && Lets(At(root, g).children[0], true).names != {}
  }

  lemma ConfinesIsGuards(root: Ast, g: Path, a: Path)
    requires PlainHandler(root)
    ensures Confines(root, g, a) <==> Guards(root, g, a)
    ensures Confines(root, g, a) ==>
              MethodNames(At(root, g).children[0]) == Some(Lets(At(root, g).children[0], true).names)
  {
    InBodyIff(root, g, a);
    if InBody(root, g, a) {
      PlainIsRecognised(At(root, g).children[0]);
    }
  }

  /** On a handler with plain tests the analysis answers exactly when every await is in the body of some `if` that
      confines the method, and with exactly the methods those let through. */
  lemma PlainVerdict(root: Ast, answer: Option<set<string>>)
    requires PlainHandler(root) && Verdict(root, answer)
    ensures answer.Some? <==> forall a :: IsAwait(root, a) ==> exists g :: Confines(root, g, a)
    ensures answer.Some? ==> forall name ::
                name in answer.value <==> exists g, a ::
                  IsAwait(root, a) && Confines(root, g, a) && name in Lets(At(root, g).children[0], true).names
  {
    forall g, a ensures Confines(root, g, a) <==> Guards(root, g, a) {
      ConfinesIsGuards(root, g, a);
    }
    forall a ensures IsGuarded(root, a) <==> exists g :: Confines(root, g, a) {
      if g :| Confines(root, g, a) {
        WalkIsTheTree(root, g);
      }
    }
    if answer.Some? {
      forall name
        ensures name in answer.value <==> exists g, a ::
                  IsAwait(root, a) && Confines(root, g, a) && name in Lets(At(root, g).children[0], true).names
      {
        NamedByLets(root, name);
      }
    }
  }

  lemma NamedByLets(root: Ast, name: string)
    requires PlainHandler(root)
    ensures IsNamed(root, name) <==> exists g, a ::
              IsAwait(root, a) && Confines(root, g, a) && name in Lets(At(root, g).children[0], true).names
  {
    if IsNamed(root, name) {
      var g, a :| IsAwait(root, a) && Guards(root, g, a) && name in MethodNames(At(root, g).children[0]).value;
      ConfinesIsGuards(root, g, a);
    }
    if g, a :| IsAwait(root, a) && Confines(root, g, a) && name in Lets(At(root, g).children[0], true).names {
      ConfinesIsGuards(root, g, a);
      assert IsAwait(root, a) && Guards(root, g, a) && name in MethodNames(At(root, g).children[0]).value;
    }
  }
}
