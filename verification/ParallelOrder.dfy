// When checking in parallel against an environment that already holds every declaration says the same as
// checking one after the other (src/main.cpp), and the inputs on which the order check does not ensure it.
module ParallelOrder {
  import opened DeclOrder
  import W = Workers

  /** What an environment knows a constant by. */
  type Decls = map<nat, ConstDecl>

  /** The checker's verdict on a declaration in an environment. */
  type Checker = (Decls, Decl) -> bool

  /**
   * The constants looked up for what is no constant node: for a numeral (`Nat` and its constructors), for a
   * string (`String`, `Char`, `List` and their constructors), and along with a constant (the results of the
   * primitive comparisons of numerals).
   */
  datatype Builtins = Builtins(numeral: set<nat>, str: set<nat>, along: map<nat, set<nat>>)

  function Here(B: Builtins, nd: Node): set<nat> {
    match nd
    case NatLit => B.numeral
    case StrLit => B.str
    case ConstNode(n) => {n} + if n in B.along then B.along[n] else {}
    case ProjNode(s, _) => {s}
    case _ => {}
  }

  /** The constant is one the checker looks up for the term. */
  ghost predicate Uses(nodes: seq<Node>, B: Builtins, e: nat, n: nat)
    decreases e
  {
    e < |nodes|
    && (n in Here(B, nodes[e])
        || exists k :: 0 <= k < |Children(nodes[e])| && Children(nodes[e])[k] < e && Uses(nodes, B, Children(nodes[e])[k], n))
  }

  ghost predicate ConstUses(nodes: seq<Node>, B: Builtins, c: ConstDecl, n: nat) {
    n in c.refs || exists k :: 0 <= k < |c.roots| && Uses(nodes, B, c.roots[k], n)
  }

  ghost predicate DeclUses(nodes: seq<Node>, B: Builtins, d: Decl, n: nat) { exists c :: c in d && ConstUses(nodes, B, c, n) }

  /** No declaration uses a constant introduced by a later one. */
  ghost predicate UseOrder(nodes: seq<Node>, B: Builtins, decls: seq<Decl>) {
    forall i: nat, n: nat :: i < |decls| && DeclUses(nodes, B, decls[i], n) ==> NotLater(decls, i)(n)
  }

  /** Adding a declaration fails on a constant that is already there. */
  ghost predicate Distinct(decls: seq<Decl>) {
    forall i, j, k, l ::
      0 <= i < |decls| && 0 <= j < |decls| && 0 <= k < |decls[i]| && 0 <= l < |decls[j]|
      ==> decls[i][k].name == decls[j][l].name ==> i == j && k == l
  }

  ghost predicate IsEnv(env: Decls, decls: seq<Decl>, keep: nat -> bool) {
    (forall n :: n in env ==> exists i, k :: 0 <= i < |decls| && keep(i) && 0 <= k < |decls[i]| && decls[i][k] == env[n]
                                             && decls[i][k].name == n)
    && forall i, k :: 0 <= i < |decls| && keep(i) && 0 <= k < |decls[i]| ==>
         decls[i][k].name in env && env[decls[i][k].name] == decls[i][k]
  }

  type Names = nat -> bool

  ghost predicate Within(nodes: seq<Node>, B: Builtins, d: Decl, S: Names) {
    forall n: nat :: DeclUses(nodes, B, d, n) ==> S(n)
  }

  /** What the environment says of the names in S uses names in S only. */
  ghost predicate ClosedUnder(nodes: seq<Node>, B: Builtins, env: Decls, S: Names) {
    forall n :: n in env && S(n) ==> Within(nodes, B, [env[n]], S)
  }

  /** S holds all of a declaration's constants or none. */
  ghost predicate Whole(decls: seq<Decl>, S: Names) {
    forall j, n: nat, m: nat :: 0 <= j < |decls| && Introduces(decls[j], n) && Introduces(decls[j], m) && S(n) ==> S(m)
  }

  ghost predicate SameOn(env: Decls, env': Decls, S: Names) {
    forall n: nat :: S(n) ==> (n in env <==> n in env') && (n in env ==> env[n] == env'[n])
  }

  /** The verdict depends only on the declarations reachable through what is used. */
  ghost predicate Local(nodes: seq<Node>, B: Builtins, decls: seq<Decl>, check: Checker) {
    forall env: Decls, env': Decls, d: Decl, S: Names ::
      Within(nodes, B, d, S) && ClosedUnder(nodes, B, env, S) && Whole(decls, S) && SameOn(env, env', S) ==>
        check(env, d) == check(env', d)
  }

  /** Not introduced by a declaration after the i-th. */
  ghost function NotLater(decls: seq<Decl>, i: nat): Names {
    (n: nat) => forall j :: i < j < |decls| ==> !Introduces(decls[j], n)
  }

  /** The environment a worker sees: everything, the declaration's own constants hidden. */
  ghost predicate IsHidden(env: Decls, decls: seq<Decl>, i: nat) { IsEnv(env, decls, (j: nat) => j != i) }

  /** The environment of the declarations before the i-th. */
  ghost predicate IsPrefix(env: Decls, decls: seq<Decl>, i: nat) { IsEnv(env, decls, (j: nat) => j < i) }

  lemma OwnConstant(decls: seq<Decl>, i: nat, j: nat, n: nat)
    requires Distinct(decls) && j < |decls| && Introduces(decls[j], n) && NotLater(decls, i)(n)
    ensures j <= i
  {
  }

  lemma SameBelow(decls: seq<Decl>, i: nat, hidden: Decls, prefix: Decls)
    requires Distinct(decls) && IsHidden(hidden, decls, i) && IsPrefix(prefix, decls, i)
    ensures SameOn(hidden, prefix, NotLater(decls, i))
  {
    forall n: nat | NotLater(decls, i)(n)
      ensures (n in hidden <==> n in prefix) && (n in hidden ==> hidden[n] == prefix[n])
    {
      if n in hidden {
        var j, k :| 0 <= j < |decls| && j != i && 0 <= k < |decls[j]| && decls[j][k] == hidden[n] && decls[j][k].name == n;
        assert Introduces(decls[j], n);
        OwnConstant(decls, i, j, n);
      }
      if n in prefix {
        var j, k :| 0 <= j < |decls| && j < i && 0 <= k < |decls[j]| && decls[j][k] == prefix[n] && decls[j][k].name == n;
        assert decls[j][k].name in hidden;
      }
    }
  }

  lemma HiddenClosed(nodes: seq<Node>, B: Builtins, decls: seq<Decl>, i: nat, hidden: Decls)
    requires UseOrder(nodes, B, decls) && Distinct(decls) && i < |decls| && IsHidden(hidden, decls, i)
    ensures ClosedUnder(nodes, B, hidden, NotLater(decls, i))
  {
    var S := NotLater(decls, i);
    forall n | n in hidden && S(n) ensures Within(nodes, B, [hidden[n]], S) {
      var j, k :| 0 <= j < |decls| && j != i && 0 <= k < |decls[j]| && decls[j][k] == hidden[n] && decls[j][k].name == n;
      assert Introduces(decls[j], n);
      OwnConstant(decls, i, j, n);
      forall m: nat | DeclUses(nodes, B, [hidden[n]], m) ensures S(m) {
        assert ConstUses(nodes, B, decls[j][k], m) && decls[j][k] in decls[j];
        assert DeclUses(nodes, B, decls[j], m);
        assert NotLater(decls, j)(m);
      }
    }
  }

  lemma NotLaterWhole(decls: seq<Decl>, i: nat)
    requires Distinct(decls)
    ensures Whole(decls, NotLater(decls, i))
  {
    var S := NotLater(decls, i);
    forall j: nat, n: nat, m: nat | j < |decls| && Introduces(decls[j], n) && Introduces(decls[j], m) && S(n) ensures S(m) {
      OwnConstant(decls, i, j, n);
      forall l | i < l < |decls| ensures !Introduces(decls[l], m) {}
    }
  }

  /**
   * With no use of a later constant, a worker's verdict on a declaration, with the later ones in its
   * environment, is the verdict of checking one after the other.
   */
  lemma SameVerdict(nodes: seq<Node>, B: Builtins, decls: seq<Decl>, check: Checker, i: nat, hidden: Decls, prefix: Decls)
    requires UseOrder(nodes, B, decls) && Distinct(decls) && Local(nodes, B, decls, check) && i < |decls|
    requires IsHidden(hidden, decls, i) && IsPrefix(prefix, decls, i)
    ensures check(hidden, decls[i]) == check(prefix, decls[i])
  {
    var S := NotLater(decls, i);
    HiddenClosed(nodes, B, decls, i, hidden);
    SameBelow(decls, i, hidden, prefix);
    NotLaterWhole(decls, i);
    assert Within(nodes, B, decls[i], S);
  }

  /** The environments of every worker's checks, and of checking in file order. */
  ghost predicate Environments(decls: seq<Decl>, hidden: nat -> Decls, prefix: nat -> Decls) {
    forall i: nat {:trigger hidden(i)} {:trigger prefix(i)} :: i < |decls| ==>
      IsHidden(hidden(i), decls, i) && IsPrefix(prefix(i), decls, i)
  }

  /** The checker says the same of each declaration both ways. */
  ghost predicate Agrees(decls: seq<Decl>, check: Checker, hidden: nat -> Decls, prefix: nat -> Decls) {
    forall i: nat {:trigger hidden(i)} {:trigger prefix(i)} :: i < |decls| ==>
      check(hidden(i), decls[i]) == check(prefix(i), decls[i])
  }

  /** The checker that asks only whether n is there, if the declaration uses it. */
  ghost function Seeks(nodes: seq<Node>, B: Builtins, n: nat): Checker {
    (env: Decls, d: Decl) => DeclUses(nodes, B, d, n) ==> n in env
  }

  lemma SeeksLocal(nodes: seq<Node>, B: Builtins, decls: seq<Decl>, n: nat)
    ensures Local(nodes, B, decls, Seeks(nodes, B, n))
  {
  }

  lemma SeeksDiffers(nodes: seq<Node>, B: Builtins, decls: seq<Decl>, i: nat, j: nat, n: nat, hidden: Decls, prefix: Decls)
    requires Distinct(decls) && i < j < |decls| && Introduces(decls[j], n) && DeclUses(nodes, B, decls[i], n)
    requires IsHidden(hidden, decls, i) && IsPrefix(prefix, decls, i)
    ensures Seeks(nodes, B, n)(hidden, decls[i]) && !Seeks(nodes, B, n)(prefix, decls[i])
  {
    var k :| 0 <= k < |decls[j]| && decls[j][k].name == n;
    assert decls[j][k].name in hidden;
  }

  /**
   * Exactly when no declaration uses a constant introduced by a later one does every checker that looks up
   * only what is used say the same in parallel as in file order.
   */
  lemma AgreeExactly(nodes: seq<Node>, B: Builtins, decls: seq<Decl>, hidden: nat -> Decls, prefix: nat -> Decls)
    requires Distinct(decls) && Environments(decls, hidden, prefix)
    ensures UseOrder(nodes, B, decls) <==>
            forall check: Checker :: Local(nodes, B, decls, check) ==> Agrees(decls, check, hidden, prefix)
  {
    if UseOrder(nodes, B, decls) {
      forall check: Checker | Local(nodes, B, decls, check) ensures Agrees(decls, check, hidden, prefix) {
        forall i: nat | i < |decls| ensures check(hidden(i), decls[i]) == check(prefix(i), decls[i]) {
          SameVerdict(nodes, B, decls, check, i, hidden(i), prefix(i));
        }
      }
    } else {
      var i: nat, n: nat :| i < |decls| && DeclUses(nodes, B, decls[i], n) && !NotLater(decls, i)(n);
      var j :| i < j < |decls| && Introduces(decls[j], n);
      SeeksLocal(nodes, B, decls, n);
      SeeksDiffers(nodes, B, decls, i, j, n, hidden(i), prefix(i));
      assert !Agrees(decls, Seeks(nodes, B, n), hidden, prefix);
    }
  }

  /**
   * Parallel checking says what sequential checking says: in every interleaving in which the workers all
   * finish and none dies, the parent reports success exactly when each declaration is accepted in the
   * environment of the ones before it.
   */
  lemma ParallelIsSequential(nodes: seq<Node>, B: Builtins, decls: seq<Decl>, check: Checker, job: W.Job,
                             schedule: seq<W.Event>, hidden: nat -> Decls, prefix: nat -> Decls)
    requires UseOrder(nodes, B, decls) && Distinct(decls) && Local(nodes, B, decls, check)
    requires Environments(decls, hidden, prefix)
    requires job.n == |decls| && job.workers > 0
    requires forall i: nat :: i < |decls| ==> job.good(i) == check(hidden(i), decls[i])
    requires W.AllFinished(W.Run(job, schedule)) && W.NobodyDied(W.Run(job, schedule))
    ensures W.ExitCode(W.Run(job, schedule)) == 0 <==> forall i: nat :: i < |decls| ==> check(prefix(i), decls[i])
  {
    W.ExitCodeExact(job, schedule);
    forall i: nat | i < |decls| ensures job.good(i) == check(prefix(i), decls[i]) {
      SameVerdict(nodes, B, decls, check, i, hidden(i), prefix(i));
    }
  }

  // ---------------------------------------------------------------- what the order check sees

  lemma {:induction false} CitesUses(nodes: seq<Node>, B: Builtins, e: nat, n: nat)
    requires Cites(nodes, e, n)
    ensures Uses(nodes, B, e, n)
    decreases e
  {
    if nodes[e] != ConstNode(n) {
      var k :| 0 <= k < |Children(nodes[e])| && Children(nodes[e])[k] < e && Cites(nodes, Children(nodes[e])[k], n);
      CitesUses(nodes, B, Children(nodes[e])[k], n);
    }
  }

  /** What is used in order passes the order check. */
  lemma UseOrderPasses(nodes: seq<Node>, B: Builtins, decls: seq<Decl>)
    requires UseOrder(nodes, B, decls)
    ensures InOrder(nodes, decls)
  {
    forall i, n: nat, j: nat | 0 <= i < |decls| && DeclCites(nodes, decls[i], n) && IsFirst(decls, n, j) ensures j <= i {
      var c, k :| c in decls[i] && 0 <= k < |c.roots| && Cites(nodes, c.roots[k], n);
      CitesUses(nodes, B, c.roots[k], n);
      assert ConstUses(nodes, B, c, n);
      assert NotLater(decls, i)(n);
    }
  }

  /** A definition by a projection out of a string, before the structure of strings with its constructor. */
  function StringTooEarly(strings: nat, y: nat, mk: nat): seq<Decl> {
    [[ConstDecl(y, [1], {})], [ConstDecl(strings, [], {mk})]]
  }

  /**
   * The order check passes more: such a definition cites no constant, so its order is accepted.  A checker
   * that needs the structure to be there accepts both declarations in parallel, where it is there already,
   * and rejects the definition in file order.
   */
  lemma LiteralBeforeType(B: Builtins, strings: nat, y: nat, mk: nat, hidden: nat -> Decls, prefix: nat -> Decls)
    requires strings in B.str && strings != y && strings != mk
    requires Environments(StringTooEarly(strings, y, mk), hidden, prefix)
    ensures var nodes, decls := [StrLit, ProjNode(strings, 0)], StringTooEarly(strings, y, mk);
            var check := Seeks(nodes, B, strings);
            Ordered(nodes) && Distinct(decls) && InOrder(nodes, decls) && Local(nodes, B, decls, check)
            && (forall i: nat :: i < |decls| ==> check(hidden(i), decls[i])) && !check(prefix(0), decls[0])
  {
    var nodes, decls := [StrLit, ProjNode(strings, 0)], StringTooEarly(strings, y, mk);
    var c, d := ConstDecl(y, [1], {}), ConstDecl(strings, [], {mk});
    assert decls[0] == [c] && decls[1] == [d] && c in decls[0] && c.roots[0] == 1;
    assert Uses(nodes, B, 1, strings);
    assert ConstUses(nodes, B, c, strings);
    assert decls[1][0].name == strings;
    SeeksLocal(nodes, B, decls, strings);
    SeeksDiffers(nodes, B, decls, 0, 1, strings, hidden(0), prefix(0));
    assert !ConstUses(nodes, B, d, strings);
    NothingCited(nodes, decls);
  }

  lemma NothingCited(nodes: seq<Node>, decls: seq<Decl>)
    requires |nodes| == 2 && nodes[0] == StrLit && nodes[1].ProjNode? && nodes[1].b == 0
    ensures Ordered(nodes) && InOrder(nodes, decls)
  {
    forall e: nat, n: nat ensures !Cites(nodes, e, n) {
      assert !Cites(nodes, 0, n);
      if e == 1 { assert Children(nodes[1]) == [0]; }
    }
  }
}
