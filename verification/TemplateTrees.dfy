/**
  Templates as trees, how they render, and the trees with a coverage marker in front of every located
  statement.  A source is a tree of text, tags and blocks; a dash at a tag's edge trims the white space
  of the text on that side.
 */
module TemplateTrees {
  import opened Wrappers
  import opened Sequences

  /** "{{", a dash if it trims the text before it, white space, content, a dash if it trims after, "}}". */
  datatype Tag = Tag(trimLeft: bool, gap: string, content: string, trimRight: bool)

  /** A leaf statement.  The parser places a {{template}} call at its name, past a keyword and white space. */
  datatype Action =
    | Statement(id: nat)
    | TemplateCall(id: nat, name: string, keyword: nat, nameAt: nat)
    | Break
    | Continue

  /** `key` names the file and line of a statement. */
  datatype Node =
    | Text(text: string)
    | Leaf(tag: Tag, action: Action, key: string, line: nat)
    | Comment(tag: Tag)
    | Marker(key: string, dashed: bool)
    | Block(id: nat, loops: bool, head: Tag, body: seq<Node>, alt: Alt)
    | Define(name: string, head: Tag, body: seq<Node>, end: Tag)

  /** How a block goes on after its body: {{end}}, {{else}}..{{end}}, or a chained {{else if}}. */
  datatype Alt =
    | NoElse(end: Tag)
    | Else(tag: Tag, nodes: seq<Node>, end: Tag)
    | ElseIf(chain: Node)

  /** A named template: what is trimmed at its two ends depends on the tags around it. */
  datatype Template = Template(nodes: seq<Node>, left: bool, right: bool)

  type Table = map<string, Template>

  predicate IsSpace(c: char) {
    c == ' ' || c == '\t' || c == '\r' || c == '\n'
  }

  predicate AllSpace(s: string) {
    forall i :: 0 <= i < |s| ==> IsSpace(s[i])
  }

  // ----- rendering

  function TrimStart(s: string): string {
    if s != "" && IsSpace(s[0]) then TrimStart(s[1..]) else s
  }

  function TrimEnd(s: string): string {
    if s != "" && IsSpace(s[|s| - 1]) then TrimEnd(s[..|s| - 1]) else s
  }

  function Trimmed(s: string, left: bool, right: bool): string {
    var t := if left then TrimStart(s) else s;
    if right then TrimEnd(t) else t
  }

  /** Whether the node's first tag trims the text before it. */
  predicate LeftDash(n: Node) {
    match n
    case Text(_) => false
    case Leaf(tag, _, _, _) => tag.trimLeft
    case Comment(tag) => tag.trimLeft
    case Marker(_, dashed) => dashed
    case Block(_, _, head, _, _) => head.trimLeft
    case Define(_, head, _, _) => head.trimLeft
  }

  /** Whether the node's last tag trims the text after it. */
  predicate RightDash(n: Node) {
    match n
    case Text(_) => false
    case Leaf(tag, _, _, _) => tag.trimRight
    case Comment(tag) => tag.trimRight
    case Marker(_, dashed) => dashed
    case Block(_, _, _, _, alt) => AltRightDash(alt)
    case Define(_, _, _, end) => end.trimRight
  }

  predicate AltRightDash(alt: Alt) {
    match alt
    case NoElse(end) => end.trimRight
    case Else(_, _, end) => end.trimRight
    case ElseIf(chain) => RightDash(chain)
  }

  predicate AltLeftDash(alt: Alt) {
    match alt
    case NoElse(end) => end.trimLeft
    case Else(tag, _, _) => tag.trimLeft
    case ElseIf(chain) => LeftDash(chain)
  }

  /** What a tag's pipeline does: it ends with a value, or first has a template rendered into a string. */
  datatype Program<!W> =
    | Finish(text: string, world: W, ok: bool)
    | Include(name: string, world: W, next: (string, bool, W) -> Program<W>)

  /**
    The pipelines of statements, whose value is printed; of blocks, on whose value it depends how often a
    loop runs or whether a test holds; and of the arguments of {{template}} calls, with what a call makes
    of the world the callee leaves behind.
   */
  datatype Semantics<!W> = Semantics(
    act: (nat, W) -> Program<W>,
    test: (nat, W) -> Program<W>,
    choose: (nat, string, W) -> (nat, W),
    argument: (nat, W) -> Program<W>,
    enter: (nat, string, W) -> W,
    leave: (nat, W, W) -> W)

  datatype Signal = Normal | BreakLoop | ContinueLoop | Abort

  /** `hits` are the keys of the markers run, `reached` those of the located statements run. */
  datatype Run<W> = Run(text: string, world: W, signal: Signal, hits: seq<string>, reached: seq<string>)

  function Then<W>(a: Run<W>, b: Run<W>): Run<W> {
    Run(a.text + b.text, b.world, b.signal, a.hits + b.hits, a.reached + b.reached)
  }

  function Stop<W>(w: W, signal: Signal): Run<W> {
    Run("", w, signal, [], [])
  }

  predicate Located(a: Action) {
    !a.TemplateCall?
  }

  /** The key of a located leaf. */
  function Marks(n: Node): seq<string> {
    if n.Leaf? && Located(n.action) then [n.key] else []
  }

  /** A named template, from a fresh start; `fuel` bounds nesting and includes. */
  function Execute<W>(sem: Semantics<W>, ts: Table, name: string, w: W, fuel: nat): Run<W>
    decreases fuel, 1
  {
    if fuel == 0 || name !in ts then Stop(w, Abort)
    else
      var t := ts[name];
      ExecList(sem, ts, t.nodes, t.left, t.right, w, fuel - 1)
  }

  /** Included text goes to the statement, not to the output. */
  function RunProgram<W>(sem: Semantics<W>, ts: Table, p: Program<W>, fuel: nat): Run<W>
    decreases fuel, 0
  {
    match p
    case Finish(text, world, ok) => Stop(world, if ok then Normal else Abort).(text := text)
    case Include(name, world, next) =>
      if fuel == 0 then Stop(world, Abort)
      else
        var inner := Execute(sem, ts, name, world, fuel - 1);
        Then(inner.(text := ""), RunProgram(sem, ts, next(inner.text, inner.signal != Abort, inner.world), fuel - 1))
  }

  /** A pipeline for its value, which is not printed. */
  function Evaluate<W>(sem: Semantics<W>, ts: Table, p: Program<W>, fuel: nat): (string, Run<W>)
    decreases fuel, 1
  {
    var r := RunProgram(sem, ts, p, fuel);
    (r.text, r.(text := ""))
  }

  /** A {{template}} call writes straight to the output, also when it fails half way. */
  function Call<W>(sem: Semantics<W>, ts: Table, id: nat, name: string, w: W, fuel: nat): Run<W>
    decreases fuel, 2
  {
    var (value, arg) := Evaluate(sem, ts, sem.argument(id, w), fuel);
    if arg.signal != Normal then arg
    else if fuel == 0 then Then(arg, Stop(arg.world, Abort))
    else
      var r := Execute(sem, ts, name, sem.enter(id, value, arg.world), fuel - 1);
      Then(arg, r.(world := sem.leave(id, arg.world, r.world), signal := if r.signal == Abort then Abort else Normal))
  }

  function ExecAction<W>(sem: Semantics<W>, ts: Table, a: Action, w: W, fuel: nat): Run<W>
    decreases fuel, 3
  {
    match a
    case Break => Stop(w, BreakLoop)
    case Continue => Stop(w, ContinueLoop)
    case Statement(id) => RunProgram(sem, ts, sem.act(id, w), fuel)
    case TemplateCall(id, name, _, _) => Call(sem, ts, id, name, w, fuel)
  }

  function ExecList<W>(sem: Semantics<W>, ts: Table, nodes: seq<Node>, left: bool, right: bool, w: W, fuel: nat): Run<W>
    decreases fuel, 4, nodes, 1, 0
  {
    if nodes == [] then Stop(w, Normal)
    else
      var next := if |nodes| > 1 then LeftDash(nodes[1]) else right;
      var first := ExecNode(sem, ts, nodes[0], left, next, w, fuel);
      if first.signal != Normal then first
      else Then(first, ExecList(sem, ts, nodes[1..], RightDash(nodes[0]), right, first.world, fuel))
  }

  function ExecNode<W>(sem: Semantics<W>, ts: Table, n: Node, left: bool, right: bool, w: W, fuel: nat): Run<W>
    decreases fuel, 4, n, 1, 0
  {
    match n
    case Text(text) => Stop(w, Normal).(text := Trimmed(text, left, right))
    case Comment(_) => Stop(w, Normal)
    case Define(_, _, _, _) => Stop(w, Normal)
    case Marker(key, _) => Stop(w, Normal).(hits := [key])
    case Leaf(_, action, _, _) =>
      var r := ExecAction(sem, ts, action, w, fuel);
      r.(reached := Marks(n) + r.reached)
    case Block(id, loops, head, body, alt) =>
      var (value, test) := Evaluate(sem, ts, sem.test(id, w), fuel);
      if test.signal != Normal then test
      else
        var (k, w') := sem.choose(id, value, test.world);
        Then(test,
             if k == 0 then ExecAlt(sem, ts, alt, w', fuel)
             else if loops then ExecLoop(sem, ts, body, head.trimRight, AltLeftDash(alt), k, w', fuel)
             else ExecList(sem, ts, body, head.trimRight, AltLeftDash(alt), w', fuel))
  }

  function ExecAlt<W>(sem: Semantics<W>, ts: Table, alt: Alt, w: W, fuel: nat): Run<W>
    decreases fuel, 4, alt, 1, 0
  {
    match alt
    case NoElse(_) => Stop(w, Normal)
    case Else(tag, nodes, end) => ExecList(sem, ts, nodes, tag.trimRight, end.trimLeft, w, fuel)
    case ElseIf(chain) => ExecNode(sem, ts, chain, false, false, w, fuel)
  }

  function ExecLoop<W>(sem: Semantics<W>, ts: Table, body: seq<Node>, left: bool, right: bool, k: nat, w: W, fuel: nat): Run<W>
    decreases fuel, 4, body, 2, k
  {
    if k == 0 then Stop(w, Normal)
    else
      var once := ExecList(sem, ts, body, left, right, w, fuel);
      match once.signal
      case Abort => once
      case BreakLoop => once.(signal := Normal)
      case _ => Then(once, ExecLoop(sem, ts, body, left, right, k - 1, once.world, fuel))
  }

  // ----- the instrumented trees

  function InstrumentList(nodes: seq<Node>): (r: seq<Node>)
    ensures r == [] <==> nodes == []
    decreases nodes, 0
  {
    if nodes == [] then []
    else
      var n := nodes[0];
      (if n.Leaf? && Located(n.action) then [Marker(n.key, n.tag.trimLeft), n] else [InstrumentNode(n)])
      + InstrumentList(nodes[1..])
  }

  function InstrumentNode(n: Node): Node
    decreases n, 0
  {
    match n
    case Block(_, _, _, body, alt) => n.(body := InstrumentList(body), alt := InstrumentAlt(alt))
    case Define(_, _, body, _) => n.(body := InstrumentList(body))
    case _ => n
  }

  function InstrumentAlt(alt: Alt): Alt
    decreases alt, 0
  {
    match alt
    case NoElse(_) => alt
    case Else(tag, nodes, end) => Else(tag, InstrumentList(nodes), end)
    case ElseIf(chain) => ElseIf(InstrumentNode(chain))
  }

  function InstrumentAll(ts: Table): Table {
    map name | name in ts :: ts[name].(nodes := InstrumentList(ts[name].nodes))
  }

  /** White space follows the opening delimiter; a template's name follows its keyword and white space. */
  predicate ValidPoint(tag: Tag, action: Action) {
    && AllSpace(tag.gap)
    && (action.TemplateCall? ==>
          && 0 < action.keyword <= action.nameAt <= |tag.content|
          && 'a' <= tag.content[action.keyword - 1] <= 'z'
          && AllSpace(tag.content[action.keyword..action.nameAt]))
  }

  /** Nodes as parsed: no markers, and chains are blocks. */
  predicate AreSource(nodes: seq<Node>) {
    forall i :: 0 <= i < |nodes| ==> IsSource(nodes[i])
  }

  predicate IsSource(n: Node) {
    match n
    case Marker(_, _) => false
    case Leaf(tag, action, _, _) => ValidPoint(tag, action)
    case Block(_, _, _, body, alt) => AreSource(body) && IsSourceAlt(alt)
    case Define(_, _, body, _) => AreSource(body)
    case _ => true
  }

  predicate IsSourceAlt(alt: Alt) {
    match alt
    case NoElse(_) => true
    case Else(_, nodes, _) => AreSource(nodes)
    case ElseIf(chain) => chain.Block? && IsSource(chain)
  }

  predicate AllSource(ts: Table) {
    forall name :: name in ts ==> AreSource(ts[name].nodes)
  }

  /** The same run, with markers hit where statements were reached. */
  predicate SameRun<W(==)>(a: Run<W>, b: Run<W>) {
    b.text == a.text && b.world == a.world && b.signal == a.signal && b.hits == a.reached && b.reached == a.reached
  }

  lemma {:induction false} SameDashes(n: Node)
    ensures LeftDash(InstrumentNode(n)) == LeftDash(n) && RightDash(InstrumentNode(n)) == RightDash(n)
    decreases n, 0
  {
    if n.Block? {
      SameAltDashes(n.alt);
    }
  }

  lemma {:induction false} SameAltDashes(alt: Alt)
    ensures AltLeftDash(InstrumentAlt(alt)) == AltLeftDash(alt) && AltRightDash(InstrumentAlt(alt)) == AltRightDash(alt)
    decreases alt, 0
  {
    if alt.ElseIf? {
      SameDashes(alt.chain);
    }
  }

  lemma FirstDash(nodes: seq<Node>)
    requires nodes != []
    ensures LeftDash(InstrumentList(nodes)[0]) == LeftDash(nodes[0])
  {
    SameDashes(nodes[0]);
  }

  function NextDash(rest: seq<Node>, right: bool): bool {
    if rest != [] then LeftDash(rest[0]) else right
  }

  lemma ExecCons<W>(sem: Semantics<W>, ts: Table, n: Node, rest: seq<Node>, left: bool, right: bool, w: W, fuel: nat)
    ensures ExecList(sem, ts, [n] + rest, left, right, w, fuel) ==
            var first := ExecNode(sem, ts, n, left, NextDash(rest, right), w, fuel);
            if first.signal != Normal then first
            else Then(first, ExecList(sem, ts, rest, RightDash(n), right, first.world, fuel))
  {
    assert ([n] + rest)[1..] == rest;
    assert rest != [] ==> ([n] + rest)[1] == rest[0];
  }

  /** A marker in front of a leaf adds its hit and nothing else. */
  lemma MarkedLeaf<W>(sem: Semantics<W>, ts: Table, n: Node, rest: seq<Node>, left: bool, right: bool, w: W, fuel: nat)
    requires n.Leaf?
    ensures var plain, marked := ExecList(sem, ts, [n] + rest, left, right, w, fuel),
                                 ExecList(sem, ts, [Marker(n.key, n.tag.trimLeft)] + ([n] + rest), left, right, w, fuel);
            marked == plain.(hits := [n.key] + plain.hits)
  {
    var mark := Marker(n.key, n.tag.trimLeft);
    ExecCons(sem, ts, mark, [n] + rest, left, right, w, fuel);
    ExecCons(sem, ts, n, rest, left, right, w, fuel);
    ExecCons(sem, ts, n, rest, RightDash(mark), right, w, fuel);
    var plain := ExecList(sem, ts, [n] + rest, left, right, w, fuel);
    assert "" + plain.text == plain.text && [] + plain.reached == plain.reached;
  }

  /** What a list's instrumentation is: its first node's, and that of the rest. */
  lemma InstrumentCons(n: Node, rest: seq<Node>)
    ensures InstrumentList([n] + rest) ==
            if n.Leaf? && Located(n.action) then [Marker(n.key, n.tag.trimLeft)] + ([n] + InstrumentList(rest))
            else [InstrumentNode(n)] + InstrumentList(rest)
  {
    assert ([n] + rest)[1..] == rest;
  }

  lemma ThenSame<W>(a: Run<W>, b: Run<W>, mark: seq<string>, a': Run<W>, b': Run<W>)
    requires SameRun(a, b.(hits := mark + b.hits)) && SameRun(a', b')
    ensures SameRun(Then(a, a'), Then(b, b').(hits := mark + Then(b, b').hits))
  {
    Regroup(mark, b.hits, b'.hits);
  }

  /** A first node that runs the same but for its own marker, and a rest that runs the same. */
  lemma FirstSame<W>(sem: Semantics<W>, ts: Table, ts': Table, n: Node, rest: seq<Node>, more: seq<Node>, left: bool, right: bool, w: W, fuel: nat)
    requires NextDash(rest, right) == NextDash(more, right)
    requires var first, first' := ExecNode(sem, ts, n, left, NextDash(rest, right), w, fuel),
                                  ExecNode(sem, ts', InstrumentNode(n), left, NextDash(rest, right), w, fuel);
             && SameRun(first, first'.(hits := Marks(n) + first'.hits))
             && (first.signal == Normal ==>
                   SameRun(ExecList(sem, ts, rest, RightDash(n), right, first.world, fuel),
                           ExecList(sem, ts', more, RightDash(n), right, first.world, fuel)))
    ensures var b := ExecList(sem, ts', [InstrumentNode(n)] + more, left, right, w, fuel);
            SameRun(ExecList(sem, ts, [n] + rest, left, right, w, fuel), b.(hits := Marks(n) + b.hits))
  {
    SameDashes(n);
    ExecCons(sem, ts, n, rest, left, right, w, fuel);
    ExecCons(sem, ts', InstrumentNode(n), more, left, right, w, fuel);
    var first := ExecNode(sem, ts, n, left, NextDash(rest, right), w, fuel);
    if first.signal == Normal {
      var first' := ExecNode(sem, ts', InstrumentNode(n), left, NextDash(rest, right), w, fuel);
      ThenSame(first, first', Marks(n),
               ExecList(sem, ts, rest, RightDash(n), right, first.world, fuel),
               ExecList(sem, ts', more, RightDash(n), right, first.world, fuel));
    }
  }

  lemma {:induction false} InstrumentedList<W>(sem: Semantics<W>, ts: Table, nodes: seq<Node>, left: bool, right: bool, w: W, fuel: nat)
    requires AllSource(ts) && AreSource(nodes)
    ensures SameRun(ExecList(sem, ts, nodes, left, right, w, fuel),
                    ExecList(sem, InstrumentAll(ts), InstrumentList(nodes), left, right, w, fuel))
    decreases fuel, 4, nodes, 1, 0
  {
    if nodes != [] {
      var n, rest := nodes[0], nodes[1..];
      var more := InstrumentList(rest);
      var first := ExecNode(sem, ts, n, left, NextDash(rest, right), w, fuel);
      if rest != [] {
        FirstDash(rest);
      }
      InstrumentedNode(sem, ts, n, left, NextDash(rest, right), w, fuel);
      if first.signal == Normal {
        InstrumentedList(sem, ts, rest, RightDash(n), right, first.world, fuel);
      }
      FirstSame(sem, ts, InstrumentAll(ts), n, rest, more, left, right, w, fuel);
      assert nodes == [n] + rest;
      FirstMarked(sem, InstrumentAll(ts), n, rest, left, right, w, fuel);
    }
  }

  /** The instrumented list hits the first node's own marker, if any, and then what the rest hits. */
  lemma FirstMarked<W>(sem: Semantics<W>, ts: Table, n: Node, rest: seq<Node>, left: bool, right: bool, w: W, fuel: nat)
    ensures var b := ExecList(sem, ts, [InstrumentNode(n)] + InstrumentList(rest), left, right, w, fuel);
            ExecList(sem, ts, InstrumentList([n] + rest), left, right, w, fuel) == b.(hits := Marks(n) + b.hits)
  {
    var more := InstrumentList(rest);
    InstrumentCons(n, rest);
    if n.Leaf? && Located(n.action) {
      MarkedLeaf(sem, ts, n, more, left, right, w, fuel);
    } else {
      var b := ExecList(sem, ts, [InstrumentNode(n)] + more, left, right, w, fuel);
      assert [] + b.hits == b.hits;
    }
  }

  lemma {:induction false} InstrumentedNode<W>(sem: Semantics<W>, ts: Table, n: Node, left: bool, right: bool, w: W, fuel: nat)
    requires AllSource(ts) && IsSource(n)
    ensures var b := ExecNode(sem, InstrumentAll(ts), InstrumentNode(n), left, right, w, fuel);
            SameRun(ExecNode(sem, ts, n, left, right, w, fuel), b.(hits := Marks(n) + b.hits))
    decreases fuel, 4, n, 1, 0
  {
    if n.Leaf? {
      InstrumentedAction(sem, ts, n.action, w, fuel);
    } else if n.Block? {
      InstrumentedBlock(sem, ts, n, left, right, w, fuel);
      var b := ExecNode(sem, InstrumentAll(ts), InstrumentNode(n), left, right, w, fuel);
      assert [] + b.hits == b.hits;
    }
  }

  lemma {:induction false} InstrumentedBlock<W>(sem: Semantics<W>, ts: Table, n: Node, left: bool, right: bool, w: W, fuel: nat)
    requires AllSource(ts) && IsSource(n) && n.Block?
    ensures SameRun(ExecNode(sem, ts, n, left, right, w, fuel), ExecNode(sem, InstrumentAll(ts), InstrumentNode(n), left, right, w, fuel))
    decreases fuel, 4, n, 0, 0
  {
    InstrumentedProgram(sem, ts, sem.test(n.id, w), fuel);
    var (value, test) := Evaluate(sem, ts, sem.test(n.id, w), fuel);
    if test.signal == Normal {
      var (k, w') := sem.choose(n.id, value, test.world);
      SameAltDashes(n.alt);
      if k == 0 {
        InstrumentedAlt(sem, ts, n.alt, w', fuel);
      } else if n.loops {
        InstrumentedLoop(sem, ts, n.body, n.head.trimRight, AltLeftDash(n.alt), k, w', fuel);
      } else {
        InstrumentedList(sem, ts, n.body, n.head.trimRight, AltLeftDash(n.alt), w', fuel);
      }
    }
  }

  lemma {:induction false} InstrumentedAlt<W>(sem: Semantics<W>, ts: Table, alt: Alt, w: W, fuel: nat)
    requires AllSource(ts) && IsSourceAlt(alt)
    ensures SameRun(ExecAlt(sem, ts, alt, w, fuel), ExecAlt(sem, InstrumentAll(ts), InstrumentAlt(alt), w, fuel))
    decreases fuel, 4, alt, 1, 0
  {
    match alt
    case NoElse(_) =>
    case Else(tag, nodes, end) => InstrumentedList(sem, ts, nodes, tag.trimRight, end.trimLeft, w, fuel);
    case ElseIf(chain) =>
      InstrumentedNode(sem, ts, chain, false, false, w, fuel);
      var b := ExecNode(sem, InstrumentAll(ts), InstrumentNode(chain), false, false, w, fuel);
      assert [] + b.hits == b.hits;
  }

  lemma {:induction false} InstrumentedLoop<W>(sem: Semantics<W>, ts: Table, body: seq<Node>, left: bool, right: bool, k: nat, w: W, fuel: nat)
    requires AllSource(ts) && AreSource(body)
    ensures SameRun(ExecLoop(sem, ts, body, left, right, k, w, fuel),
                    ExecLoop(sem, InstrumentAll(ts), InstrumentList(body), left, right, k, w, fuel))
    decreases fuel, 4, body, 2, k
  {
    if k != 0 {
      InstrumentedList(sem, ts, body, left, right, w, fuel);
      var once := ExecList(sem, ts, body, left, right, w, fuel);
      if once.signal == Normal || once.signal == ContinueLoop {
        InstrumentedLoop(sem, ts, body, left, right, k - 1, once.world, fuel);
      }
    }
  }

  lemma {:induction false} InstrumentedAction<W>(sem: Semantics<W>, ts: Table, a: Action, w: W, fuel: nat)
    requires AllSource(ts)
    ensures SameRun(ExecAction(sem, ts, a, w, fuel), ExecAction(sem, InstrumentAll(ts), a, w, fuel))
    decreases fuel, 3
  {
    match a
    case Break =>
    case Continue =>
    case Statement(id) => InstrumentedProgram(sem, ts, sem.act(id, w), fuel);
    case TemplateCall(id, name, _, _) => InstrumentedCall(sem, ts, id, name, w, fuel);
  }

  lemma {:induction false} InstrumentedCall<W>(sem: Semantics<W>, ts: Table, id: nat, name: string, w: W, fuel: nat)
    requires AllSource(ts)
    ensures SameRun(Call(sem, ts, id, name, w, fuel), Call(sem, InstrumentAll(ts), id, name, w, fuel))
    decreases fuel, 2
  {
    InstrumentedProgram(sem, ts, sem.argument(id, w), fuel);
    var (value, arg) := Evaluate(sem, ts, sem.argument(id, w), fuel);
    if arg.signal == Normal && fuel != 0 {
      InstrumentedTemplate(sem, ts, name, sem.enter(id, value, arg.world), fuel - 1);
    }
  }

  lemma {:induction false} InstrumentedProgram<W>(sem: Semantics<W>, ts: Table, p: Program<W>, fuel: nat)
    requires AllSource(ts)
    ensures SameRun(RunProgram(sem, ts, p, fuel), RunProgram(sem, InstrumentAll(ts), p, fuel))
    decreases fuel, 0
  {
    if p.Include? && fuel != 0 {
      InstrumentedTemplate(sem, ts, p.name, p.world, fuel - 1);
      var inner := Execute(sem, ts, p.name, p.world, fuel - 1);
      InstrumentedProgram(sem, ts, p.next(inner.text, inner.signal != Abort, inner.world), fuel - 1);
    }
  }

  /**
    With markers in every template of the table, any template renders the same text, leaves the same
    world and ends the same way, and hits the markers as often as the located statements are reached,
    in it and in all it calls and includes.
   */
  lemma {:induction false} InstrumentedTemplate<W>(sem: Semantics<W>, ts: Table, name: string, w: W, fuel: nat)
    requires AllSource(ts)
    ensures SameRun(Execute(sem, ts, name, w, fuel), Execute(sem, InstrumentAll(ts), name, w, fuel))
    decreases fuel, 1
  {
    if fuel != 0 && name in ts {
      InstrumentedList(sem, ts, ts[name].nodes, ts[name].left, ts[name].right, w, fuel - 1);
    }
  }

  // ----- files

  /** The templates a file defines, apart from itself. */
  function DefinedIn(nodes: seq<Node>): Table {
    if nodes == [] then map[]
    else
      match nodes[0]
      case Define(name, head, body, end) => map[name := Template(body, head.trimRight, end.trimLeft)] + DefinedIn(nodes[1..])
      case _ => DefinedIn(nodes[1..])
  }

  datatype File = File(name: string, nodes: seq<Node>)

  /** A file is a template under its own name, and defines others; later definitions replace earlier ones. */
  function TableOf(files: seq<File>): Table {
    if files == [] then map[] else TableOf(files[..|files| - 1]) + FileTable(files[|files| - 1])
  }

  function InstrumentFiles(files: seq<File>): (r: seq<File>)
    ensures |r| == |files|
  {
    seq(|files|, i requires 0 <= i < |files| => files[i].(nodes := InstrumentList(files[i].nodes)))
  }

  lemma InstrumentMerged(a: Table, b: Table)
    ensures InstrumentAll(a + b) == InstrumentAll(a) + InstrumentAll(b)
    ensures AllSource(a) && AllSource(b) ==> AllSource(a + b)
  {
  }

  lemma InstrumentOne(name: string, t: Template)
    ensures InstrumentAll(map[name := t]) == map[name := t.(nodes := InstrumentList(t.nodes))]
    ensures AreSource(t.nodes) ==> AllSource(map[name := t])
  {
  }

  lemma {:induction false} DefinedInInstrumented(nodes: seq<Node>)
    requires AreSource(nodes)
    ensures DefinedIn(InstrumentList(nodes)) == InstrumentAll(DefinedIn(nodes)) && AllSource(DefinedIn(nodes))
  {
    if nodes != [] {
      var n, rest := nodes[0], nodes[1..];
      DefinedInInstrumented(rest);
      assert nodes == [n] + rest;
      InstrumentCons(n, rest);
      SkipLeaves(n, InstrumentList(rest));
      if n.Define? {
        var t := Template(n.body, n.head.trimRight, n.end.trimLeft);
        InstrumentOne(n.name, t);
        InstrumentMerged(map[n.name := t], DefinedIn(rest));
      }
    }
  }

  lemma SkipLeaves(n: Node, rest: seq<Node>)
    ensures !n.Define? ==> DefinedIn([n] + rest) == DefinedIn(rest)
    ensures n.Leaf? ==> DefinedIn([Marker(n.key, n.tag.trimLeft)] + ([n] + rest)) == DefinedIn(rest)
    ensures InstrumentNode(n).Define? <==> n.Define?
    ensures DefinedIn([InstrumentNode(n)] + rest) ==
            if n.Define? then map[n.name := Template(InstrumentList(n.body), n.head.trimRight, n.end.trimLeft)] + DefinedIn(rest)
            else DefinedIn(rest)
  {
    assert ([n] + rest)[1..] == rest && ([InstrumentNode(n)] + rest)[1..] == rest;
    if n.Leaf? {
      assert ([Marker(n.key, n.tag.trimLeft)] + ([n] + rest))[1..] == [n] + rest;
    }
  }

  function FileTable(file: File): Table {
    map[file.name := Template(file.nodes, false, false)] + DefinedIn(file.nodes)
  }

  lemma FileInstrumented(file: File)
    requires AreSource(file.nodes)
    ensures FileTable(file.(nodes := InstrumentList(file.nodes))) == InstrumentAll(FileTable(file)) && AllSource(FileTable(file))
  {
    var t := Template(file.nodes, false, false);
    DefinedInInstrumented(file.nodes);
    InstrumentOne(file.name, t);
    InstrumentMerged(map[file.name := t], DefinedIn(file.nodes));
  }

  /** Instrumenting every file instruments every template they define. */
  lemma {:induction false} TableOfInstrumented(files: seq<File>)
    requires forall i :: 0 <= i < |files| ==> AreSource(files[i].nodes)
    ensures TableOf(InstrumentFiles(files)) == InstrumentAll(TableOf(files)) && AllSource(TableOf(files))
  {
    if files == [] {
      assert InstrumentAll(map[]) == map[];
    } else {
      var front, file := files[..|files| - 1], files[|files| - 1];
      TableOfInstrumented(front);
      FileInstrumented(file);
      InstrumentMerged(TableOf(front), FileTable(file));
      assert InstrumentFiles(files)[..|files| - 1] == InstrumentFiles(front);
    }
  }

  // ----- erasing the markers

  function EraseList(nodes: seq<Node>): seq<Node>
    decreases nodes, 0
  {
    if nodes == [] then []
    else (if nodes[0].Marker? then [] else [EraseNode(nodes[0])]) + EraseList(nodes[1..])
  }

  function EraseNode(n: Node): Node
    decreases n, 0
  {
    match n
    case Block(_, _, _, body, alt) => n.(body := EraseList(body), alt := EraseAlt(alt))
    case Define(_, _, body, _) => n.(body := EraseList(body))
    case _ => n
  }

  function EraseAlt(alt: Alt): Alt
    decreases alt, 0
  {
    match alt
    case NoElse(_) => alt
    case Else(tag, nodes, end) => Else(tag, EraseList(nodes), end)
    case ElseIf(chain) => ElseIf(EraseNode(chain))
  }

  lemma {:induction false} ErasedList(nodes: seq<Node>)
    requires AreSource(nodes)
    ensures EraseList(InstrumentList(nodes)) == nodes
    decreases nodes, 0
  {
    if nodes != [] {
      var n, more := nodes[0], InstrumentList(nodes[1..]);
      ErasedList(nodes[1..]);
      ErasedNode(n);
      var r := InstrumentList(nodes);
      if n.Leaf? && Located(n.action) {
        assert r[1..] == [n] + more;
        assert r[1..][1..] == more;
      } else {
        assert r[1..] == more;
      }
      assert nodes == [n] + nodes[1..];
    }
  }

  lemma {:induction false} ErasedNode(n: Node)
    requires IsSource(n)
    ensures EraseNode(InstrumentNode(n)) == n && !InstrumentNode(n).Marker?
    decreases n, 0
  {
    if n.Block? {
      ErasedList(n.body);
      ErasedAlt(n.alt);
    } else if n.Define? {
      ErasedList(n.body);
    }
  }

  lemma {:induction false} ErasedAlt(alt: Alt)
    requires IsSourceAlt(alt)
    ensures EraseAlt(InstrumentAlt(alt)) == alt
    decreases alt, 0
  {
    match alt
    case NoElse(_) =>
    case Else(_, nodes, _) => ErasedList(nodes);
    case ElseIf(chain) => ErasedNode(chain);
  }
}
