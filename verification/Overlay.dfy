/**
  Rendering with two template trees: the embedded templates, and a clone of them with the user's
  overlay on top.  A template is a program that emits text, invokes other templates of the tree it runs
  in ({{template}}), and asks objects to include a named template, to be rendered, or to be summarized.
  What programs do with data is left open: a body is any function of the data it is given.
 */
module Overlay {
  import opened Wrappers
  import opened Strings

  datatype Object = Object(kind: string, group: string, uid: string, title: string)

  datatype Tree = Embedded | User

  /** An object as templates hold it; `current` is the tree its own render was dispatched to, if any. */
  datatype Renderable = Renderable(o: Object, current: Option<Tree>)

  /** Template data: some renderable objects and other values; `bare` when it is one object itself. */
  datatype Data = Data(objects: seq<Renderable>, other: string, bare: bool)

  /** What a template body can see of its data: `current` is not exported. */
  datatype View = View(objects: seq<Object>, other: string, bare: bool)

  /** An object a program can name: one from its data, or one it has fetched from the cluster. */
  datatype Handle = Given(i: nat) | Fetched(o: Object)

  datatype Arg = Arg(handles: seq<Handle>, other: string, bare: bool)

  datatype Query =
    | Include(receiver: Handle, name: string, arg: Arg)
    | Render(receiver: Handle)
    | HealthSummary(receiver: Handle, other: string)

  datatype Program =
    | Done
    | Emit(text: string, rest: Program)
    | Invoke(name: string, arg: Arg, rest: Program)
    | Ask(query: Query, next: string -> Program)

  type Body = View -> Program
  type Templates = map<string, Body>

  datatype TemplateSet = TemplateSet(
    embedded: Templates, user: Templates, kindNames: set<string>, userDefinedNames: set<string>)

  /** `fileNames` are the base names of the embedded template files. */
  function KindTemplateNames(embedded: Templates, fileNames: set<string>): set<string> {
    {"DefaultResource"} + (fileNames * embedded.Keys)
  }

  method CollectKindTemplateNames(embedded: Templates, entries: seq<string>) returns (names: set<string>)
    ensures names == KindTemplateNames(embedded, set e | e in entries)
  {
    names := {"DefaultResource"};
    for i := 0 to |entries|
      invariant names == KindTemplateNames(embedded, set e | e in entries[..i])
    {
      if entries[i] in embedded {
        names := names + {entries[i]};
      }
    }
    assert entries[..|entries|] == entries;
  }

  function BuildTemplateSet(embedded: Templates, fileNames: set<string>, overlay: Templates): TemplateSet {
    TemplateSet(embedded, embedded + overlay, KindTemplateNames(embedded, fileNames), overlay.Keys)
  }

  function TreeFor(ts: TemplateSet, name: string): Tree {
    if name in ts.userDefinedNames then User else Embedded
  }

  predicate Defined(ts: TemplateSet, name: string) {
    name in ts.embedded || name in ts.userDefinedNames
  }

  function FindTemplateName(ts: TemplateSet, kind: string, group: string): (Tree, string) {
    if group != "" && Defined(ts, kind + "." + group) then (TreeFor(ts, kind + "." + group), kind + "." + group)
    else if Defined(ts, kind) then (TreeFor(ts, kind), kind)
    else (TreeFor(ts, "DefaultResource"), "DefaultResource")
  }

  function FindSummaryTemplateName(ts: TemplateSet, kind: string, group: string): Option<string> {
    if group != "" && Defined(ts, kind + "." + group + ".summary") then Some(kind + "." + group + ".summary")
    else if Defined(ts, kind + ".summary") then Some(kind + ".summary")
    else None
  }

  function ResolveIncludeTree(ts: TemplateSet, name: string, current: Option<Tree>): Tree {
    if name in ts.kindNames || HasSuffix(name, ".summary") then TreeFor(ts, name)
    else if current.Some? then current.value
    else Embedded
  }

  function TemplatesOf(ts: TemplateSet, tree: Tree): Templates {
    if tree == User then ts.user else ts.embedded
  }

  // ----- running templates

  /**
    `renderedUIDs` is shared by all renders of one top-level object.  The rest is kept for what is proved
    about runs: the objects rendered; the objects whose Kind template was let through; those reported
    "already printed" although theirs was not; every execution of a template on one object, under its
    name; and those of them that were {{template}} calls.
   */
  datatype State = State(
    renderedUIDs: set<string>, dispatched: set<Object>, entered: set<Object>, mistaken: set<Object>,
    runs: multiset<(string, Object)>, direct: multiset<(string, Object)>)

  /** `failed` is an execution error, `exhausted` that the run was cut off by its fuel. */
  datatype Outcome = Outcome(text: string, failed: bool, exhausted: bool, state: State)

  function Resolve(h: Handle, data: Data): Option<Renderable> {
    match h
    case Given(i) => if i < |data.objects| then Some(data.objects[i]) else None
    case Fetched(o) => Some(Renderable(o, None))
  }

  function ResolveAll(hs: seq<Handle>, data: Data): seq<Renderable> {
    if hs == [] then []
    else (match Resolve(hs[0], data) case Some(r) => [r] case None => []) + ResolveAll(hs[1..], data)
  }

  function ArgData(arg: Arg, data: Data): Data {
    Data(ResolveAll(arg.handles, data), arg.other, arg.bare)
  }

  function Plain(rs: seq<Renderable>): (os: seq<Object>)
    ensures |os| == |rs|
  {
    seq(|rs|, i requires 0 <= i < |rs| => rs[i].o)
  }

  function ViewOf(data: Data): View {
    View(Plain(data.objects), data.other, data.bare)
  }

  function Cut(st: State): Outcome {
    Outcome("", false, true, st)
  }

  /** The uids shared by all renders of one top-level object, updated in place. */
  class UidSet {
    var uids: set<string>

    /** Whether the uid was there already; it is afterwards. */
    method CheckAdd(uid: string) returns (existed: bool)
      modifies this
      ensures existed == (uid in old(uids)) && uids == old(uids) + {uid}
    {
      existed := uid in uids;
      if !existed {
        uids := uids + {uid};
      }
    }
  }

  predicate Stopped(out: Outcome) {
    out.failed || out.exhausted
  }

  /** The execution of a template on `data`, if that is one object. */
  function Execution(name: string, data: Data): multiset<(string, Object)> {
    if data.bare && |data.objects| == 1 then multiset{(name, data.objects[0].o)} else multiset{}
  }

  predicate Extends(before: State, after: State) {
    before.dispatched <= after.dispatched && before.renderedUIDs <= after.renderedUIDs
  }

  /** The rest of a program, after `out` has been written. */
  function Then(out: Outcome, more: Outcome): Outcome {
    Outcome(out.text + more.text, more.failed, more.exhausted, more.state)
  }

  function Run(ts: TemplateSet, watching: bool, tree: Tree, p: Program, data: Data, st: State, fuel: nat): (out: Outcome)
    ensures Extends(st, out.state)
    decreases fuel
  {
    if fuel == 0 then Cut(st)
    else
      match p
      case Done => Outcome("", false, false, st)
      case Emit(text, rest) =>
        Then(Outcome(text, false, false, st), Run(ts, watching, tree, rest, data, st, fuel - 1))
      case Invoke(name, arg, rest) =>
        var out := ExecuteNamed(ts, watching, tree, name, ArgData(arg, data), Called(st, name, ArgData(arg, data)), fuel - 1);
        if Stopped(out) then out
        else Then(out, Run(ts, watching, tree, rest, data, out.state, fuel - 1))
      case Ask(query, next) =>
        var out := Answer(ts, watching, query, data, st, fuel - 1);
        if Stopped(out) then out.(text := "")
        else Run(ts, watching, tree, next(out.text), data, out.state, fuel - 1)
  }

  /** Include and HealthSummary report errors to the calling template; Render drops them. */
  function Answer(ts: TemplateSet, watching: bool, query: Query, data: Data, st: State, fuel: nat): (out: Outcome)
    ensures Extends(st, out.state)
    decreases fuel
  {
    if fuel == 0 then Cut(st)
    else
      match Resolve(query.receiver, data)
      case None => Outcome("", true, false, st)
      case Some(r) =>
        match query
        case Include(_, name, arg) => ExecuteTemplate(ts, watching, r.current, name, ArgData(arg, data), st, fuel - 1)
        case Render(_) => RenderObject(ts, watching, r.o, st, fuel - 1).(failed := false)
        case HealthSummary(_, other) => Summarize(ts, watching, r, other, st, fuel - 1)
  }

  /** tree.ExecuteTemplate */
  function ExecuteNamed(ts: TemplateSet, watching: bool, tree: Tree, name: string, data: Data, st: State, fuel: nat): (out: Outcome)
    ensures Extends(st, out.state)
    decreases fuel
  {
    if fuel == 0 then Cut(st)
    else if name !in TemplatesOf(ts, tree) then Outcome("", true, false, st)
    else Run(ts, watching, tree, TemplatesOf(ts, tree)[name](ViewOf(data)), data, Ran(st, name, data), fuel - 1)
  }

  function Called(st: State, name: string, data: Data): State {
    st.(direct := st.direct + Execution(name, data))
  }

  function Ran(st: State, name: string, data: Data): State {
    st.(runs := st.runs + Execution(name, data))
  }

  /** The data is an object and the template is its Kind's: it is to be printed once. */
  predicate IsOwnKind(name: string, data: Data) {
    data.bare && |data.objects| == 1 && data.objects[0].o.kind == name
  }

  function LetThrough(st: State, o: Object): State {
    st.(renderedUIDs := st.renderedUIDs + {o.uid}, entered := st.entered + {o})
  }

  function KeptBack(st: State, o: Object): State {
    if o in st.entered then st else st.(mistaken := st.mistaken + {o})
  }

  function ExecuteTemplate(ts: TemplateSet, watching: bool, current: Option<Tree>, name: string, data: Data, st: State, fuel: nat): (out: Outcome)
    ensures Extends(st, out.state)
    decreases fuel
  {
    if fuel == 0 then Cut(st)
    else if IsOwnKind(name, data) then
      var o := data.objects[0].o;
      if o.uid in st.renderedUIDs && !watching then
        Outcome(o.title + " is already printed", false, false, KeptBack(st, o))
      else
        ExecuteNamed(ts, watching, ResolveIncludeTree(ts, name, current), name, data, LetThrough(st, o), fuel - 1)
    else ExecuteNamed(ts, watching, ResolveIncludeTree(ts, name, current), name, data, st, fuel - 1)
  }

  function RenderObject(ts: TemplateSet, watching: bool, o: Object, st: State, fuel: nat): (out: Outcome)
    ensures Extends(st, out.state) && (fuel > 0 ==> o in out.state.dispatched)
    decreases fuel
  {
    if fuel == 0 then Cut(st)
    else
      var (tree, name) := FindTemplateName(ts, o.kind, o.group);
      ExecuteTemplate(ts, watching, Some(tree), name, Data([Renderable(o, Some(tree))], "", true),
                      st.(dispatched := st.dispatched + {o}), fuel - 1)
  }

  const GENERIC := "generic_health_summary"

  function Summarize(ts: TemplateSet, watching: bool, r: Renderable, other: string, st: State, fuel: nat): (out: Outcome)
    ensures Extends(st, out.state)
    decreases fuel
  {
    if fuel == 0 then Cut(st)
    else
      var data := Data([r], other, false);
      match FindSummaryTemplateName(ts, r.o.kind, r.o.group)
      case Some(name) => ExecuteTemplate(ts, watching, r.current, name, data, st, fuel - 1)
      case None => ExecuteTemplate(ts, watching, r.current, GENERIC, data, st, fuel - 1)
  }

  // ----- an overlay that names none of the kinds involved changes nothing

  /** The overlay defines no Kind-dispatch name and no summary. */
  ghost predicate OnlyHelpers(embedded: Templates, fileNames: set<string>, overlay: Templates) {
    && overlay.Keys !! KindTemplateNames(embedded, fileNames)
    && forall name :: name in overlay ==> !HasSuffix(name, ".summary")
  }

  /** The overlay defines no template an object of this kind and group would be dispatched to. */
  predicate Untouched(overlay: Templates, o: Object) {
    o.kind !in overlay && o.kind + "." + o.group !in overlay
  }

  predicate AllUntouched(overlay: Templates, os: set<Object>) {
    forall o :: o in os ==> Untouched(overlay, o)
  }

  /** No object was dispatched to the user tree. */
  predicate NoUserTree(rs: seq<Renderable>) {
    forall i :: 0 <= i < |rs| ==> rs[i].current != Some(User)
  }

  lemma {:induction false} ResolvedNoUserTree(hs: seq<Handle>, data: Data)
    requires NoUserTree(data.objects)
    ensures NoUserTree(ResolveAll(hs, data))
  {
    if hs != [] {
      ResolvedNoUserTree(hs[1..], data);
    }
  }

  lemma SuffixOfConcat(s: string, suffix: string)
    ensures HasSuffix(s + suffix, suffix)
  {
  }

  /** Names resolve to the embedded tree with the overlay as without it. */
  lemma SameNames(embedded: Templates, fileNames: set<string>, overlay: Templates, o: Object)
    requires OnlyHelpers(embedded, fileNames, overlay)
    ensures var ts0, ts1 := BuildTemplateSet(embedded, fileNames, map[]), BuildTemplateSet(embedded, fileNames, overlay);
            && FindSummaryTemplateName(ts1, o.kind, o.group) == FindSummaryTemplateName(ts0, o.kind, o.group)
            && (Untouched(overlay, o) ==> FindTemplateName(ts1, o.kind, o.group) == FindTemplateName(ts0, o.kind, o.group))
            && FindTemplateName(ts0, o.kind, o.group).0 == Embedded
            && forall name, current :: current != Some(User) ==>
                 ResolveIncludeTree(ts1, name, current) == ResolveIncludeTree(ts0, name, current) == Embedded
  {
    SuffixOfConcat(o.kind + "." + o.group, ".summary");
    SuffixOfConcat(o.kind, ".summary");
    assert "DefaultResource" in KindTemplateNames(embedded, fileNames);
  }

  lemma {:induction false} SameRun(embedded: Templates, fileNames: set<string>, overlay: Templates, watching: bool,
                                   p: Program, data: Data, st: State, fuel: nat)
    requires OnlyHelpers(embedded, fileNames, overlay) && NoUserTree(data.objects)
    requires AllUntouched(overlay, Run(BuildTemplateSet(embedded, fileNames, map[]), watching, Embedded, p, data, st, fuel).state.dispatched)
    ensures Run(BuildTemplateSet(embedded, fileNames, overlay), watching, Embedded, p, data, st, fuel)
         == Run(BuildTemplateSet(embedded, fileNames, map[]), watching, Embedded, p, data, st, fuel)
    decreases fuel, 1
  {
    if fuel != 0 {
      match p
      case Done =>
      case Emit(text, rest) =>
        SameRun(embedded, fileNames, overlay, watching, rest, data, st, fuel - 1);
      case Invoke(_, _, _) =>
        SameInvoke(embedded, fileNames, overlay, watching, p, data, st, fuel);
      case Ask(_, _) =>
        SameAsk(embedded, fileNames, overlay, watching, p, data, st, fuel);
    }
  }

  lemma {:induction false} SameInvoke(embedded: Templates, fileNames: set<string>, overlay: Templates, watching: bool,
                                      p: Program, data: Data, st: State, fuel: nat)
    requires fuel > 0 && p.Invoke?
    requires OnlyHelpers(embedded, fileNames, overlay) && NoUserTree(data.objects)
    requires AllUntouched(overlay, Run(BuildTemplateSet(embedded, fileNames, map[]), watching, Embedded, p, data, st, fuel).state.dispatched)
    ensures Run(BuildTemplateSet(embedded, fileNames, overlay), watching, Embedded, p, data, st, fuel)
         == Run(BuildTemplateSet(embedded, fileNames, map[]), watching, Embedded, p, data, st, fuel)
    decreases fuel, 0
  {
    var arg := ArgData(p.arg, data);
    ResolvedNoUserTree(p.arg.handles, data);
    var called := Called(st, p.name, arg);
    var out := ExecuteNamed(BuildTemplateSet(embedded, fileNames, map[]), watching, Embedded, p.name, arg, called, fuel - 1);
    SameExecute(embedded, fileNames, overlay, watching, p.name, arg, called, fuel - 1);
    if !Stopped(out) {
      SameRun(embedded, fileNames, overlay, watching, p.rest, data, out.state, fuel - 1);
    }
  }

  lemma {:induction false} SameAsk(embedded: Templates, fileNames: set<string>, overlay: Templates, watching: bool,
                                   p: Program, data: Data, st: State, fuel: nat)
    requires fuel > 0 && p.Ask?
    requires OnlyHelpers(embedded, fileNames, overlay) && NoUserTree(data.objects)
    requires AllUntouched(overlay, Run(BuildTemplateSet(embedded, fileNames, map[]), watching, Embedded, p, data, st, fuel).state.dispatched)
    ensures Run(BuildTemplateSet(embedded, fileNames, overlay), watching, Embedded, p, data, st, fuel)
         == Run(BuildTemplateSet(embedded, fileNames, map[]), watching, Embedded, p, data, st, fuel)
    decreases fuel, 0
  {
    var out := Answer(BuildTemplateSet(embedded, fileNames, map[]), watching, p.query, data, st, fuel - 1);
    SameAnswer(embedded, fileNames, overlay, watching, p.query, data, st, fuel - 1);
    if !Stopped(out) {
      SameRun(embedded, fileNames, overlay, watching, p.next(out.text), data, out.state, fuel - 1);
    }
  }

  lemma {:induction false} SameAnswer(embedded: Templates, fileNames: set<string>, overlay: Templates, watching: bool,
                                      query: Query, data: Data, st: State, fuel: nat)
    requires OnlyHelpers(embedded, fileNames, overlay) && NoUserTree(data.objects)
    requires AllUntouched(overlay, Answer(BuildTemplateSet(embedded, fileNames, map[]), watching, query, data, st, fuel).state.dispatched)
    ensures Answer(BuildTemplateSet(embedded, fileNames, overlay), watching, query, data, st, fuel)
         == Answer(BuildTemplateSet(embedded, fileNames, map[]), watching, query, data, st, fuel)
    decreases fuel
  {
    if fuel != 0 && Resolve(query.receiver, data).Some? {
      var r := Resolve(query.receiver, data).value;
      match query
      case Include(_, name, arg) =>
        ResolvedNoUserTree(arg.handles, data);
        SameTemplate(embedded, fileNames, overlay, watching, r.current, name, ArgData(arg, data), st, fuel - 1);
      case Render(_) =>
        SameRender(embedded, fileNames, overlay, watching, r.o, st, fuel - 1);
      case HealthSummary(_, other) =>
        SameSummary(embedded, fileNames, overlay, watching, r, other, st, fuel - 1);
    }
  }

  lemma {:induction false} SameExecute(embedded: Templates, fileNames: set<string>, overlay: Templates, watching: bool,
                                       name: string, data: Data, st: State, fuel: nat)
    requires OnlyHelpers(embedded, fileNames, overlay) && NoUserTree(data.objects)
    requires AllUntouched(overlay, ExecuteNamed(BuildTemplateSet(embedded, fileNames, map[]), watching, Embedded, name, data, st, fuel).state.dispatched)
    ensures ExecuteNamed(BuildTemplateSet(embedded, fileNames, overlay), watching, Embedded, name, data, st, fuel)
         == ExecuteNamed(BuildTemplateSet(embedded, fileNames, map[]), watching, Embedded, name, data, st, fuel)
    decreases fuel
  {
    if fuel != 0 && name in embedded {
      SameRun(embedded, fileNames, overlay, watching, embedded[name](ViewOf(data)), data, Ran(st, name, data), fuel - 1);
    }
  }

  lemma {:induction false} SameTemplate(embedded: Templates, fileNames: set<string>, overlay: Templates, watching: bool,
                                        current: Option<Tree>, name: string, data: Data, st: State, fuel: nat)
    requires OnlyHelpers(embedded, fileNames, overlay) && NoUserTree(data.objects) && current != Some(User)
    requires AllUntouched(overlay, ExecuteTemplate(BuildTemplateSet(embedded, fileNames, map[]), watching, current, name, data, st, fuel).state.dispatched)
    ensures ExecuteTemplate(BuildTemplateSet(embedded, fileNames, overlay), watching, current, name, data, st, fuel)
         == ExecuteTemplate(BuildTemplateSet(embedded, fileNames, map[]), watching, current, name, data, st, fuel)
    decreases fuel
  {
    SameNames(embedded, fileNames, overlay, Object("", "", "", ""));
    if fuel != 0 {
      if IsOwnKind(name, data) {
        var o := data.objects[0].o;
        if !(o.uid in st.renderedUIDs && !watching) {
          SameExecute(embedded, fileNames, overlay, watching, name, data, LetThrough(st, o), fuel - 1);
        }
      } else {
        SameExecute(embedded, fileNames, overlay, watching, name, data, st, fuel - 1);
      }
    }
  }

  /**
    Non-interference: if the overlay defines no Kind-dispatch name, no summary, and no template for any
    object rendered on the way, rendering an object gives the same output as without an overlay.
   */
  lemma {:induction false} SameRender(embedded: Templates, fileNames: set<string>, overlay: Templates, watching: bool,
                                      o: Object, st: State, fuel: nat)
    requires OnlyHelpers(embedded, fileNames, overlay)
    requires AllUntouched(overlay, RenderObject(BuildTemplateSet(embedded, fileNames, map[]), watching, o, st, fuel).state.dispatched)
    ensures RenderObject(BuildTemplateSet(embedded, fileNames, overlay), watching, o, st, fuel)
         == RenderObject(BuildTemplateSet(embedded, fileNames, map[]), watching, o, st, fuel)
    decreases fuel
  {
    var ts0 := BuildTemplateSet(embedded, fileNames, map[]);
    SameNames(embedded, fileNames, overlay, o);
    if fuel != 0 {
      var (tree, name) := FindTemplateName(ts0, o.kind, o.group);
      assert Untouched(overlay, o);
      SameTemplate(embedded, fileNames, overlay, watching, Some(tree), name, Data([Renderable(o, Some(tree))], "", true),
                   st.(dispatched := st.dispatched + {o}), fuel - 1);
    }
  }

  lemma {:induction false} SameSummary(embedded: Templates, fileNames: set<string>, overlay: Templates, watching: bool,
                                       r: Renderable, other: string, st: State, fuel: nat)
    requires OnlyHelpers(embedded, fileNames, overlay) && r.current != Some(User)
    requires AllUntouched(overlay, Summarize(BuildTemplateSet(embedded, fileNames, map[]), watching, r, other, st, fuel).state.dispatched)
    ensures Summarize(BuildTemplateSet(embedded, fileNames, overlay), watching, r, other, st, fuel)
         == Summarize(BuildTemplateSet(embedded, fileNames, map[]), watching, r, other, st, fuel)
    decreases fuel
  {
    SameNames(embedded, fileNames, overlay, r.o);
    if fuel != 0 {
      var found := FindSummaryTemplateName(BuildTemplateSet(embedded, fileNames, map[]), r.o.kind, r.o.group);
      var name := if found.Some? then found.value else GENERIC;
      SameTemplate(embedded, fileNames, overlay, watching, r.current, name, Data([r], other, false), st, fuel - 1);
    }
  }

  /** The state in which the template an object is dispatched to starts. */
  function Entered(st: State, tree: Tree, name: string, o: Object): State {
    var here := st.(dispatched := st.dispatched + {o});
    Ran(if name == o.kind then LetThrough(here, o) else here, name, SelfData(o, tree))
  }

  function SelfData(o: Object, tree: Tree): Data {
    Data([Renderable(o, Some(tree))], "", true)
  }

  /** A render that is not kept back runs the template the object is dispatched to. */
  lemma DispatchedRender(ts: TemplateSet, watching: bool, tree: Tree, name: string, o: Object, st: State, fuel: nat)
    requires FindTemplateName(ts, o.kind, o.group) == (tree, name)
    requires ResolveIncludeTree(ts, name, Some(tree)) == tree && name in TemplatesOf(ts, tree)
    requires watching || name != o.kind || o.uid !in st.renderedUIDs
    requires fuel > 2
    ensures RenderObject(ts, watching, o, st, fuel) ==
            Run(ts, watching, tree, TemplatesOf(ts, tree)[name](ViewOf(SelfData(o, tree))), SelfData(o, tree), Entered(st, tree, name, o), fuel - 3)
  {
    var data := SelfData(o, tree);
    var here := st.(dispatched := st.dispatched + {o});
    var entered := if name == o.kind then LetThrough(here, o) else here;
    assert RenderObject(ts, watching, o, st, fuel) == ExecuteTemplate(ts, watching, Some(tree), name, data, here, fuel - 1);
    assert ExecuteTemplate(ts, watching, Some(tree), name, data, here, fuel - 1) == ExecuteNamed(ts, watching, tree, name, data, entered, fuel - 2);
  }

  /** An overlay's own template for the name an object is dispatched to is what renders it, in the user tree. */
  lemma OverrideRenders(embedded: Templates, fileNames: set<string>, overlay: Templates, watching: bool, o: Object, st: State, fuel: nat)
    requires DispatchName(embedded.Keys + overlay.Keys, o) in overlay
    requires watching || o.uid !in st.renderedUIDs
    requires fuel > 2
    ensures var ts, name := BuildTemplateSet(embedded, fileNames, overlay), DispatchName(embedded.Keys + overlay.Keys, o);
            RenderObject(ts, watching, o, st, fuel) ==
            Run(ts, watching, User, overlay[name](ViewOf(SelfData(o, User))), SelfData(o, User), Entered(st, User, name, o), fuel - 3)
  {
    var ts, name := BuildTemplateSet(embedded, fileNames, overlay), DispatchName(embedded.Keys + overlay.Keys, o);
    DispatchByNames(embedded, fileNames, overlay, o);
    DispatchedRender(ts, watching, User, name, o, st, fuel);
  }

  lemma Emitted(ts: TemplateSet, watching: bool, text: string, data: Data, st: State, fuel: nat)
    requires fuel > 1
    ensures Run(ts, watching, User, Emit(text, Done), data, st, fuel).text == text
  {
    assert Run(ts, watching, User, Done, data, st, fuel - 1).text == "";
    assert text + "" == text;
  }

  /**
    The hypothesis on kinds is needed: for every object there is an overlay, defining only the template
    it is dispatched to, with which it renders differently.
   */
  lemma OverrideDiffers(embedded: Templates, fileNames: set<string>, watching: bool, o: Object, st: State, fuel: nat)
    returns (overlay: Templates)
    requires "DefaultResource" in embedded
    requires watching || o.uid !in st.renderedUIDs
    requires fuel > 4
    ensures overlay.Keys == {DispatchName(embedded.Keys, o)}
    ensures RenderObject(BuildTemplateSet(embedded, fileNames, overlay), watching, o, st, fuel).text
         != RenderObject(BuildTemplateSet(embedded, fileNames, map[]), watching, o, st, fuel).text
  {
    var text := RenderObject(BuildTemplateSet(embedded, fileNames, map[]), watching, o, st, fuel).text + "!";
    var name := DispatchName(embedded.Keys, o);
    var p := Emit(text, Done);
    overlay := map[name := (view: View) => p];
    assert embedded.Keys + overlay.Keys == embedded.Keys;
    OverrideRenders(embedded, fileNames, overlay, watching, o, st, fuel);
    Emitted(BuildTemplateSet(embedded, fileNames, overlay), watching, text, SelfData(o, User), Entered(st, User, name, o), fuel - 3);
  }

  // ----- which template an Include or a summary runs

  /** An embedded template with its own file, or the default: one that objects are dispatched to. */
  predicate NamesKind(embedded: Templates, fileNames: set<string>, name: string) {
    name == "DefaultResource" || (name in fileNames && name in embedded)
  }

  predicate HeldBack(watching: bool, name: string, data: Data, st: State) {
    IsOwnKind(name, data) && data.objects[0].o.uid in st.renderedUIDs && !watching
  }

  function Admitted(st: State, name: string, data: Data): State {
    if IsOwnKind(name, data) then LetThrough(st, data.objects[0].o) else st
  }

  /** The template of that name among `templates`, run with `tree` as its own; an error if there is none. */
  function Runs(ts: TemplateSet, watching: bool, tree: Tree, templates: Templates, name: string, data: Data, st: State, fuel: nat): Outcome {
    if name in templates then
      Run(ts, watching, tree, templates[name](ViewOf(data)), data, Ran(Admitted(st, name, data), name, data), fuel)
    else Outcome("", true, false, Admitted(st, name, data))
  }

  lemma RunsInTree(ts: TemplateSet, watching: bool, current: Option<Tree>, name: string, data: Data, st: State, fuel: nat)
    requires !HeldBack(watching, name, data, st) && fuel > 1
    ensures var tree := ResolveIncludeTree(ts, name, current);
            ExecuteTemplate(ts, watching, current, name, data, st, fuel) ==
            Runs(ts, watching, tree, TemplatesOf(ts, tree), name, data, st, fuel - 2)
  {
    var tree := ResolveIncludeTree(ts, name, current);
    assert ExecuteTemplate(ts, watching, current, name, data, st, fuel) ==
           ExecuteNamed(ts, watching, tree, name, data, Admitted(st, name, data), fuel - 1);
  }

  lemma IncludeExecutes(ts: TemplateSet, watching: bool, receiver: Handle, name: string, arg: Arg, data: Data, st: State, fuel: nat)
    requires Resolve(receiver, data).Some? && !HeldBack(watching, name, ArgData(arg, data), st) && fuel > 2
    ensures var tree := ResolveIncludeTree(ts, name, Resolve(receiver, data).value.current);
            Answer(ts, watching, Include(receiver, name, arg), data, st, fuel) ==
            Runs(ts, watching, tree, TemplatesOf(ts, tree), name, ArgData(arg, data), st, fuel - 3)
  {
    RunsInTree(ts, watching, Resolve(receiver, data).value.current, name, ArgData(arg, data), st, fuel - 1);
  }

  /** An Include by a Kind or summary name the overlay defines runs the user's template, in any render. */
  lemma IncludeOverridden(embedded: Templates, fileNames: set<string>, overlay: Templates, watching: bool,
                          receiver: Handle, name: string, arg: Arg, data: Data, st: State, fuel: nat)
    requires name in overlay && (NamesKind(embedded, fileNames, name) || HasSuffix(name, ".summary"))
    requires Resolve(receiver, data).Some? && !HeldBack(watching, name, ArgData(arg, data), st) && fuel > 2
    ensures var ts := BuildTemplateSet(embedded, fileNames, overlay);
            Answer(ts, watching, Include(receiver, name, arg), data, st, fuel) ==
            Runs(ts, watching, User, overlay, name, ArgData(arg, data), st, fuel - 3)
  {
    IncludeExecutes(BuildTemplateSet(embedded, fileNames, overlay), watching, receiver, name, arg, data, st, fuel);
  }

  /** One by such a name that the overlay does not define runs the embedded template, even in the user tree. */
  lemma IncludeNotOverridden(embedded: Templates, fileNames: set<string>, overlay: Templates, watching: bool,
                             receiver: Handle, name: string, arg: Arg, data: Data, st: State, fuel: nat)
    requires name !in overlay && (NamesKind(embedded, fileNames, name) || HasSuffix(name, ".summary"))
    requires Resolve(receiver, data).Some? && !HeldBack(watching, name, ArgData(arg, data), st) && fuel > 2
    ensures var ts := BuildTemplateSet(embedded, fileNames, overlay);
            Answer(ts, watching, Include(receiver, name, arg), data, st, fuel) ==
            Runs(ts, watching, Embedded, embedded, name, ArgData(arg, data), st, fuel - 3)
  {
    IncludeExecutes(BuildTemplateSet(embedded, fileNames, overlay), watching, receiver, name, arg, data, st, fuel);
  }

  /**
    Any other name, whatever the overlay defines, stays in the tree of the render it is asked in: the user's
    template, where it has one, in a user render; otherwise the embedded one, or an error if there is none.
   */
  lemma IncludeHelper(embedded: Templates, fileNames: set<string>, overlay: Templates, watching: bool,
                      receiver: Handle, name: string, arg: Arg, data: Data, st: State, fuel: nat)
    requires !NamesKind(embedded, fileNames, name) && !HasSuffix(name, ".summary")
    requires Resolve(receiver, data).Some? && !HeldBack(watching, name, ArgData(arg, data), st) && fuel > 2
    ensures var ts, inUser := BuildTemplateSet(embedded, fileNames, overlay), Resolve(receiver, data).value.current == Some(User);
            Answer(ts, watching, Include(receiver, name, arg), data, st, fuel) ==
            Runs(ts, watching, if inUser then User else Embedded, if inUser && name in overlay then overlay else embedded,
                 name, ArgData(arg, data), st, fuel - 3)
  {
    IncludeExecutes(BuildTemplateSet(embedded, fileNames, overlay), watching, receiver, name, arg, data, st, fuel);
  }

  lemma GenericNotSummary()
    ensures !HasSuffix(GENERIC, ".summary")
  {
    assert GENERIC[|GENERIC| - 8..][0] == '_';
  }

  /** A summary template that is defined runs: the user's if there is one, in the tree it comes from. */
  lemma SummaryRuns(embedded: Templates, fileNames: set<string>, overlay: Templates, watching: bool,
                    current: Option<Tree>, name: string, data: Data, st: State, fuel: nat)
    requires HasSuffix(name, ".summary") && !data.bare && fuel > 1
    ensures var ts := BuildTemplateSet(embedded, fileNames, overlay);
            ExecuteTemplate(ts, watching, current, name, data, st, fuel) ==
            if name in overlay then Runs(ts, watching, User, overlay, name, data, st, fuel - 2)
            else Runs(ts, watching, Embedded, embedded, name, data, st, fuel - 2)
  {
    RunsInTree(BuildTemplateSet(embedded, fileNames, overlay), watching, current, name, data, st, fuel);
  }

  /** With a group, the summary of the Kind in that group comes first. */
  lemma SummaryOfGroup(embedded: Templates, fileNames: set<string>, overlay: Templates, watching: bool,
                       r: Renderable, other: string, st: State, fuel: nat)
    requires var full := r.o.kind + "." + r.o.group + ".summary"; r.o.group != "" && full in embedded.Keys + overlay.Keys
    requires fuel > 2
    ensures var ts, full := BuildTemplateSet(embedded, fileNames, overlay), r.o.kind + "." + r.o.group + ".summary";
            Summarize(ts, watching, r, other, st, fuel) ==
            if full in overlay then Runs(ts, watching, User, overlay, full, Data([r], other, false), st, fuel - 3)
            else Runs(ts, watching, Embedded, embedded, full, Data([r], other, false), st, fuel - 3)
  {
    var full := r.o.kind + "." + r.o.group + ".summary";
    SuffixOfConcat(r.o.kind + "." + r.o.group, ".summary");
    SummaryRuns(embedded, fileNames, overlay, watching, r.current, full, Data([r], other, false), st, fuel - 1);
  }

  /** Otherwise the summary of the Kind. */
  lemma SummaryOfKind(embedded: Templates, fileNames: set<string>, overlay: Templates, watching: bool,
                      r: Renderable, other: string, st: State, fuel: nat)
    requires r.o.group == "" || r.o.kind + "." + r.o.group + ".summary" !in embedded.Keys + overlay.Keys
    requires r.o.kind + ".summary" in embedded.Keys + overlay.Keys && fuel > 2
    ensures var ts, plain := BuildTemplateSet(embedded, fileNames, overlay), r.o.kind + ".summary";
            Summarize(ts, watching, r, other, st, fuel) ==
            if plain in overlay then Runs(ts, watching, User, overlay, plain, Data([r], other, false), st, fuel - 3)
            else Runs(ts, watching, Embedded, embedded, plain, Data([r], other, false), st, fuel - 3)
  {
    SuffixOfConcat(r.o.kind, ".summary");
    SummaryRuns(embedded, fileNames, overlay, watching, r.current, r.o.kind + ".summary", Data([r], other, false), st, fuel - 1);
  }

  /** With neither, the generic summary, a helper in the tree of the render it is asked in. */
  lemma SummaryGeneric(embedded: Templates, fileNames: set<string>, overlay: Templates, watching: bool,
                       r: Renderable, other: string, st: State, fuel: nat)
    requires r.o.group == "" || r.o.kind + "." + r.o.group + ".summary" !in embedded.Keys + overlay.Keys
    requires r.o.kind + ".summary" !in embedded.Keys + overlay.Keys && fuel > 2
    ensures var ts := BuildTemplateSet(embedded, fileNames, overlay);
            var inUser := if NamesKind(embedded, fileNames, GENERIC) then GENERIC in overlay else r.current == Some(User);
            Summarize(ts, watching, r, other, st, fuel) ==
            Runs(ts, watching, if inUser then User else Embedded, if inUser && GENERIC in overlay then overlay else embedded,
                 GENERIC, Data([r], other, false), st, fuel - 3)
  {
    GenericNotSummary();
    RunsInTree(BuildTemplateSet(embedded, fileNames, overlay), watching, r.current, GENERIC, Data([r], other, false), st, fuel - 1);
  }

  // ----- how often a template runs on one object

  const INITIAL := State({}, {}, {}, {}, multiset{}, multiset{})

  /** The name findTemplateName finds, when templates of these names are defined. */
  function DispatchName(names: set<string>, o: Object): string {
    if o.group != "" && o.kind + "." + o.group in names then o.kind + "." + o.group
    else if o.kind in names then o.kind
    else "DefaultResource"
  }

  lemma DispatchByNames(embedded: Templates, fileNames: set<string>, overlay: Templates, o: Object)
    ensures FindTemplateName(BuildTemplateSet(embedded, fileNames, overlay), o.kind, o.group).1 ==
            DispatchName(embedded.Keys + overlay.Keys, o)
  {
  }

  /** Calls aside, each object's Kind template has run at most once, and only when its uid is recorded. */
  ghost predicate KindRunsOnce(st: State) {
    forall o: Object :: st.runs[(o.kind, o)] <= st.direct[(o.kind, o)] + if o.uid in st.renderedUIDs then 1 else 0
  }

  predicate SharesUID(st: State, o: Object) {
    exists p :: p in st.entered && p != o && p.uid == o.uid
  }

  /** The uids recorded are those of the objects let through, and a mistaken one shares its uid with one. */
  ghost predicate UIDsRecorded(st: State) {
    && st.renderedUIDs == (set p | p in st.entered :: p.uid)
    && forall o :: o in st.mistaken ==> SharesUID(st, o)
  }

  ghost predicate Accounted(st: State) {
    KindRunsOnce(st) && UIDsRecorded(st)
  }

  lemma PassedAccounted(st: State, o: Object, name: string, data: Data)
    requires Accounted(st) && o.uid !in st.renderedUIDs && name == o.kind && data.bare && |data.objects| == 1 && data.objects[0].o == o
    ensures Accounted(LetThrough(st, o)) && Accounted(Ran(LetThrough(st, o), name, data))
  {
    var st' := LetThrough(st, o);
    assert st'.renderedUIDs == (set p | p in st'.entered :: p.uid);
    forall m | m in st'.mistaken
      ensures SharesUID(st', m)
    {
      var p :| p in st.entered && p != m && p.uid == m.uid;
      assert p in st'.entered;
    }
    assert UIDsRecorded(st');
    assert Ran(st', name, data).entered == st'.entered;
  }

  lemma KeptBackAccounted(st: State, o: Object)
    requires Accounted(st) && o.uid in st.renderedUIDs
    ensures Accounted(KeptBack(st, o))
  {
    var p :| p in st.entered && p.uid == o.uid;
    var st' := KeptBack(st, o);
    forall m | m in st'.mistaken
      ensures SharesUID(st', m)
    {
      if m in st.mistaken {
        var p' :| p' in st.entered && p' != m && p'.uid == m.uid;
        assert p' in st'.entered;
      } else {
        assert p in st'.entered && p != m;
      }
    }
  }

  lemma CalledKeepsOnce(st: State, name: string, data: Data)
    requires Accounted(st)
    ensures Accounted(Called(st, name, data)) && Accounted(Ran(Called(st, name, data), name, data))
  {
  }

  lemma {:induction false} RunKeepsOnce(ts: TemplateSet, tree: Tree, p: Program, data: Data, st: State, fuel: nat)
    requires Accounted(st)
    ensures Accounted(Run(ts, false, tree, p, data, st, fuel).state)
    decreases fuel, 1
  {
    if fuel != 0 {
      match p
      case Done =>
      case Emit(_, rest) => RunKeepsOnce(ts, tree, rest, data, st, fuel - 1);
      case Invoke(_, _, _) => InvokeKeepsOnce(ts, tree, p, data, st, fuel);
      case Ask(query, next) =>
        var out := Answer(ts, false, query, data, st, fuel - 1);
        AnswerKeepsOnce(ts, query, data, st, fuel - 1);
        RunKeepsOnce(ts, tree, next(out.text), data, out.state, fuel - 1);
    }
  }

  lemma {:induction false} InvokeKeepsOnce(ts: TemplateSet, tree: Tree, p: Program, data: Data, st: State, fuel: nat)
    requires fuel > 0 && p.Invoke? && Accounted(st)
    ensures Accounted(Run(ts, false, tree, p, data, st, fuel).state)
    decreases fuel, 0
  {
    var arg := ArgData(p.arg, data);
    var called := Called(st, p.name, arg);
    CalledKeepsOnce(st, p.name, arg);
    NamedKeepsOnce(ts, tree, p.name, arg, called, fuel - 1);
    RunKeepsOnce(ts, tree, p.rest, data, ExecuteNamed(ts, false, tree, p.name, arg, called, fuel - 1).state, fuel - 1);
  }

  lemma {:induction false} AnswerKeepsOnce(ts: TemplateSet, query: Query, data: Data, st: State, fuel: nat)
    requires Accounted(st)
    ensures Accounted(Answer(ts, false, query, data, st, fuel).state)
    decreases fuel
  {
    if fuel != 0 && Resolve(query.receiver, data).Some? {
      var r := Resolve(query.receiver, data).value;
      match query
      case Include(_, name, arg) => TemplateKeepsOnce(ts, r.current, name, ArgData(arg, data), st, fuel - 1);
      case Render(_) => RenderKeepsOnce(ts, r.o, st, fuel - 1);
      case HealthSummary(_, other) =>
        var found := FindSummaryTemplateName(ts, r.o.kind, r.o.group);
        var name := if found.Some? then found.value else GENERIC;
        if fuel > 1 {
          TemplateKeepsOnce(ts, r.current, name, Data([r], other, false), st, fuel - 2);
        }
    }
  }

  lemma {:induction false} NamedKeepsOnce(ts: TemplateSet, tree: Tree, name: string, data: Data, st: State, fuel: nat)
    requires Accounted(st) && Accounted(Ran(st, name, data))
    ensures Accounted(ExecuteNamed(ts, false, tree, name, data, st, fuel).state)
    decreases fuel
  {
    if fuel != 0 && name in TemplatesOf(ts, tree) {
      RunKeepsOnce(ts, tree, TemplatesOf(ts, tree)[name](ViewOf(data)), data, Ran(st, name, data), fuel - 1);
    }
  }

  lemma {:induction false} TemplateKeepsOnce(ts: TemplateSet, current: Option<Tree>, name: string, data: Data, st: State, fuel: nat)
    requires Accounted(st)
    ensures Accounted(ExecuteTemplate(ts, false, current, name, data, st, fuel).state)
    decreases fuel
  {
    if fuel != 0 {
      var tree := ResolveIncludeTree(ts, name, current);
      if IsOwnKind(name, data) {
        var o := data.objects[0].o;
        if o.uid in st.renderedUIDs {
          KeptBackAccounted(st, o);
        } else {
          PassedAccounted(st, o, name, data);
          NamedKeepsOnce(ts, tree, name, data, LetThrough(st, o), fuel - 1);
        }
      } else {
        NamedKeepsOnce(ts, tree, name, data, st, fuel - 1);
      }
    }
  }

  lemma {:induction false} RenderKeepsOnce(ts: TemplateSet, o: Object, st: State, fuel: nat)
    requires Accounted(st)
    ensures Accounted(RenderObject(ts, false, o, st, fuel).state)
    decreases fuel
  {
    if fuel != 0 {
      var (tree, name) := FindTemplateName(ts, o.kind, o.group);
      TemplateKeepsOnce(ts, Some(tree), name, Data([Renderable(o, Some(tree))], "", true), st.(dispatched := st.dispatched + {o}), fuel - 1);
    }
  }

  /** Outside watch mode, {{template}} calls aside, no object's Kind template runs twice while one object is processed. */
  lemma KindTemplateOncePerObject(ts: TemplateSet, root: Object, fuel: nat, o: Object)
    ensures var st := RenderObject(ts, false, root, INITIAL, fuel).state;
            st.runs[(o.kind, o)] <= 1 + st.direct[(o.kind, o)]
  {
    RenderKeepsOnce(ts, root, INITIAL, fuel);
  }

  /** While any object is processed, the template `o` is dispatched to runs on it at most once, {{template}} calls aside. */
  ghost predicate NotRepeated(embedded: Templates, fileNames: set<string>, overlay: Templates, o: Object) {
    var name := DispatchName(embedded.Keys + overlay.Keys, o);
    forall root, fuel: nat ::
      var st := RenderObject(BuildTemplateSet(embedded, fileNames, overlay), false, root, INITIAL, fuel).state;
      st.runs[(name, o)] <= 1 + st.direct[(name, o)]
  }

  ghost predicate NeverRepeated(embeddedNames: set<string>, fileNames: set<string>, overlayNames: set<string>, o: Object) {
    forall embedded: Templates, overlay: Templates ::
      embedded.Keys == embeddedNames && overlay.Keys == overlayNames ==> NotRepeated(embedded, fileNames, overlay, o)
  }

  /**
    Whatever the templates do, the one an object is dispatched to is kept from running on it again
    exactly when its name is the bare Kind: not for a "Kind.group" template, nor for DefaultResource.
   */
  lemma NeverRepeatedIff(embeddedNames: set<string>, fileNames: set<string>, overlayNames: set<string>, o: Object)
    requires "DefaultResource" in embeddedNames
    ensures NeverRepeated(embeddedNames, fileNames, overlayNames, o) <==> DispatchName(embeddedNames + overlayNames, o) == o.kind
  {
    var name := DispatchName(embeddedNames + overlayNames, o);
    if name == o.kind {
      forall embedded: Templates, overlay: Templates | embedded.Keys == embeddedNames && overlay.Keys == overlayNames
        ensures NotRepeated(embedded, fileNames, overlay, o)
      {
        forall root, fuel: nat
          ensures var st := RenderObject(BuildTemplateSet(embedded, fileNames, overlay), false, root, INITIAL, fuel).state;
                  st.runs[(name, o)] <= 1 + st.direct[(name, o)]
        {
          KindTemplateOncePerObject(BuildTemplateSet(embedded, fileNames, overlay), root, fuel, o);
        }
      }
    } else {
      var fuel: nat :| fuel > 11;
      var embedded, overlay, root := RendersTwice(embeddedNames, fileNames, overlayNames, o, fuel);
      assert !NotRepeated(embedded, fileNames, overlay, o);
    }
  }

  // ----- templates that do so

  /** Another object, dispatched like `o`. */
  function Other(o: Object): (r: Object)
    ensures r != o && r.uid != o.uid && r.kind == o.kind && r.group == o.group
  {
    assert |o.uid + "+"| == |o.uid| + 1;
    o.(uid := o.uid + "+")
  }

  /** A body that runs `p` on the object `root` and does nothing on any other. */
  function OnlyOn(root: Object, p: Program): Body {
    (view: View) => if view.objects == [root] then p else Done
  }

  function Uniform(names: set<string>, body: Body): Templates {
    map n | n in names :: body
  }

  /** All templates of `ts` have this body, and `o` is dispatched to `name` in `tree`. */
  ghost predicate Plays(ts: TemplateSet, root: Object, p: Program, o: Object, tree: Tree, name: string) {
    && FindTemplateName(ts, o.kind, o.group) == (tree, name)
    && ResolveIncludeTree(ts, name, Some(tree)) == tree && name in TemplatesOf(ts, tree)
    && TemplatesOf(ts, tree)[name] == OnlyOn(root, p)
  }

  lemma UniformPlays(embeddedNames: set<string>, fileNames: set<string>, overlayNames: set<string>, root: Object, p: Program, o: Object)
    returns (tree: Tree)
    requires "DefaultResource" in embeddedNames
    ensures var body := OnlyOn(root, p);
            Plays(BuildTemplateSet(Uniform(embeddedNames, body), fileNames, Uniform(overlayNames, body)), root, p, o,
                  tree, DispatchName(embeddedNames + overlayNames, o))
  {
    var embedded, overlay := Uniform(embeddedNames, OnlyOn(root, p)), Uniform(overlayNames, OnlyOn(root, p));
    assert embedded.Keys == embeddedNames && overlay.Keys == overlayNames;
    DispatchByNames(embedded, fileNames, overlay, o);
    tree := FindTemplateName(BuildTemplateSet(embedded, fileNames, overlay), o.kind, o.group).0;
  }

  /** Rendering an object other than the root, where nothing keeps it back. */
  lemma QuietRender(ts: TemplateSet, root: Object, p: Program, tree: Tree, name: string, o: Object, st: State, fuel: nat)
    requires Plays(ts, root, p, o, tree, name) && o != root && fuel > 3
    requires name != o.kind || o.uid !in st.renderedUIDs
    ensures RenderObject(ts, false, o, st, fuel) == Outcome("", false, false, Entered(st, tree, name, o))
  {
    DispatchedRender(ts, false, tree, name, o, st, fuel);
    assert ViewOf(SelfData(o, tree)).objects == [o];
  }

  /** A program that has it rendered goes on after it. */
  lemma AskedRender(ts: TemplateSet, root: Object, p: Program, tree: Tree, name: string, o: Object,
                    here: Tree, asks: Program, data: Data, st: State, fuel: nat)
    requires Plays(ts, root, p, o, tree, name) && o != root && fuel > 5
    requires name != o.kind || o.uid !in st.renderedUIDs
    requires asks.Ask? && asks.query == Render(Fetched(o))
    ensures Run(ts, false, here, asks, data, st, fuel) == Run(ts, false, here, asks.next(""), data, Entered(st, tree, name, o), fuel - 1)
  {
    QuietRender(ts, root, p, tree, name, o, st, fuel - 2);
    assert Answer(ts, false, Render(Fetched(o)), data, st, fuel - 1) == RenderObject(ts, false, o, st, fuel - 2).(failed := false);
  }

  lemma RootRender(ts: TemplateSet, root: Object, p: Program, tree: Tree, name: string, fuel: nat)
    requires Plays(ts, root, p, root, tree, name) && fuel > 2
    ensures RenderObject(ts, false, root, INITIAL, fuel) ==
            Run(ts, false, tree, p, SelfData(root, tree), Entered(INITIAL, tree, name, root), fuel - 3)
  {
    DispatchedRender(ts, false, tree, name, root, INITIAL, fuel);
    assert ViewOf(SelfData(root, tree)).objects == [root];
  }

  /** Not dispatched to its bare Kind, an object can be rendered twice by the template of another. */
  lemma RendersTwice(embeddedNames: set<string>, fileNames: set<string>, overlayNames: set<string>, o: Object, fuel: nat)
    returns (embedded: Templates, overlay: Templates, root: Object)
    requires "DefaultResource" in embeddedNames && DispatchName(embeddedNames + overlayNames, o) != o.kind && fuel > 11
    ensures embedded.Keys == embeddedNames && overlay.Keys == overlayNames
    ensures var out := RenderObject(BuildTemplateSet(embedded, fileNames, overlay), false, root, INITIAL, fuel);
            var name := DispatchName(embeddedNames + overlayNames, o);
            !Stopped(out) && out.state.runs[(name, o)] == 2 && out.state.direct[(name, o)] == 0
  {
    root := Other(o);
    var last := Ask(Render(Fetched(o)), (text: string) => Done);
    var p := Ask(Render(Fetched(o)), (text: string) => last);
    embedded, overlay := Uniform(embeddedNames, OnlyOn(root, p)), Uniform(overlayNames, OnlyOn(root, p));
    var tree := UniformPlays(embeddedNames, fileNames, overlayNames, root, p, o);
    TwiceRun(BuildTemplateSet(embedded, fileNames, overlay), root, p, tree, DispatchName(embeddedNames + overlayNames, o), o, fuel);
  }

  lemma TwiceRun(ts: TemplateSet, root: Object, p: Program, tree: Tree, name: string, o: Object, fuel: nat)
    requires fuel > 11
    requires Plays(ts, root, p, root, tree, name) && Plays(ts, root, p, o, tree, name) && o != root && name != o.kind
    requires p.Ask? && p.query == Render(Fetched(o))
    requires var last := p.next(""); last.Ask? && last.query == Render(Fetched(o)) && last.next("") == Done
    ensures var out := RenderObject(ts, false, root, INITIAL, fuel);
            !Stopped(out) && out.state.runs[(name, o)] == 2 && out.state.direct[(name, o)] == 0
  {
    var data := SelfData(root, tree);
    var st := Entered(INITIAL, tree, name, root);
    var st' := Entered(st, tree, name, o);
    RootRender(ts, root, p, tree, name, fuel);
    AskedRender(ts, root, p, tree, name, o, tree, p, data, st, fuel - 3);
    AskedRender(ts, root, p, tree, name, o, tree, p.next(""), data, st', fuel - 4);
    RunDone(ts, tree, data, Entered(st', tree, name, o), fuel - 5);
    EnteredCounts(INITIAL, tree, name, root, name, o);
    EnteredCounts(st, tree, name, o, name, o);
    EnteredCounts(st', tree, name, o, name, o);
  }

  lemma RunDone(ts: TemplateSet, tree: Tree, data: Data, st: State, fuel: nat)
    requires fuel > 0
    ensures Run(ts, false, tree, Done, data, st, fuel) == Outcome("", false, false, st)
  {
  }

  /** Entering a template counts one run of it on the object, and nothing else. */
  lemma EnteredCounts(st: State, tree: Tree, name: string, o: Object, other: string, p: Object)
    ensures var st' := Entered(st, tree, name, o);
            && st'.runs[(other, p)] == st.runs[(other, p)] + (if other == name && p == o then 1 else 0)
            && st'.direct == st.direct && st'.mistaken == st.mistaken
            && st'.renderedUIDs == st.renderedUIDs + (if name == o.kind then {o.uid} else {})
            && st'.entered == st.entered + (if name == o.kind then {o} else {})
  {
  }

  /** {{template}} calls are not guarded at all: one can run an object's template on it again. */
  lemma CallsRepeat(embeddedNames: set<string>, fileNames: set<string>, overlayNames: set<string>, o: Object, fuel: nat)
    returns (embedded: Templates, overlay: Templates, root: Object)
    requires "DefaultResource" in embeddedNames && fuel > 11
    ensures embedded.Keys == embeddedNames && overlay.Keys == overlayNames
    ensures var out := RenderObject(BuildTemplateSet(embedded, fileNames, overlay), false, root, INITIAL, fuel);
            var name := DispatchName(embeddedNames + overlayNames, o);
            !Stopped(out) && out.state.runs[(name, o)] == 2 && out.state.direct[(name, o)] == 1
  {
    root := Other(o);
    var name := DispatchName(embeddedNames + overlayNames, o);
    var call := Invoke(name, Arg([Fetched(o)], "", true), Done);
    var p := Ask(Render(Fetched(o)), (text: string) => call);
    embedded, overlay := Uniform(embeddedNames, OnlyOn(root, p)), Uniform(overlayNames, OnlyOn(root, p));
    var tree := UniformPlays(embeddedNames, fileNames, overlayNames, root, p, o);
    CallRun(BuildTemplateSet(embedded, fileNames, overlay), root, p, tree, name, o, fuel);
  }

  lemma CallRun(ts: TemplateSet, root: Object, p: Program, tree: Tree, name: string, o: Object, fuel: nat)
    requires fuel > 11
    requires Plays(ts, root, p, root, tree, name) && Plays(ts, root, p, o, tree, name) && o.uid != root.uid
    requires p.Ask? && p.query == Render(Fetched(o)) && p.next("") == Invoke(name, Arg([Fetched(o)], "", true), Done)
    ensures var out := RenderObject(ts, false, root, INITIAL, fuel);
            !Stopped(out) && out.state.runs[(name, o)] == 2 && out.state.direct[(name, o)] == 1
  {
    var data := SelfData(root, tree);
    var st := Entered(INITIAL, tree, name, root);
    EnteredCounts(INITIAL, tree, name, root, name, o);
    RootRender(ts, root, p, tree, name, fuel);
    AskedRender(ts, root, p, tree, name, o, tree, p, data, st, fuel - 3);
    EnteredCounts(st, tree, name, o, name, o);
    CallOnce(ts, root, p, tree, name, o, data, Entered(st, tree, name, o), fuel - 4);
  }

  lemma CallOnce(ts: TemplateSet, root: Object, p: Program, tree: Tree, name: string, o: Object, data: Data, st: State, fuel: nat)
    requires Plays(ts, root, p, o, tree, name) && o != root && fuel > 3
    ensures var arg := Data([Renderable(o, None)], "", true);
            Run(ts, false, tree, Invoke(name, Arg([Fetched(o)], "", true), Done), data, st, fuel) ==
            Outcome("", false, false, Ran(Called(st, name, arg), name, arg))
  {
    var arg := Data([Renderable(o, None)], "", true);
    assert ResolveAll([Fetched(o)], data) == [Renderable(o, None)] + ResolveAll([], data) == arg.objects;
    assert ArgData(Arg([Fetched(o)], "", true), data) == arg && ViewOf(arg).objects == [o];
    assert ExecuteNamed(ts, false, tree, name, arg, Called(st, name, arg), fuel - 1) == Outcome("", false, false, Ran(Called(st, name, arg), name, arg));
  }

  // ----- "is already printed"

  /**
    An object dispatched to its bare Kind is reported as already printed exactly when some object with its
    uid has been let through; it is a mistake exactly when that is not the object itself.
   */
  lemma AlreadyPrintedIff(ts: TemplateSet, o: Object, st: State, fuel: nat)
    requires FindTemplateName(ts, o.kind, o.group).1 == o.kind && UIDsRecorded(st) && fuel > 1
    ensures var out := RenderObject(ts, false, o, st, fuel);
            if exists p :: p in st.entered && p.uid == o.uid
            then out.text == o.title + " is already printed"
                 && out.state.entered == st.entered && (o in out.state.mistaken - st.mistaken <==> o !in st.entered && o !in st.mistaken)
            else RenderObject(ts, false, o, st, fuel) ==
                 ExecuteNamed(ts, false, FindTemplateName(ts, o.kind, o.group).0, o.kind, SelfData(o, FindTemplateName(ts, o.kind, o.group).0),
                              LetThrough(st.(dispatched := st.dispatched + {o}), o), fuel - 2)
  {
    var (tree, name) := FindTemplateName(ts, o.kind, o.group);
    var here := st.(dispatched := st.dispatched + {o});
    assert RenderObject(ts, false, o, st, fuel) == ExecuteTemplate(ts, false, Some(tree), name, SelfData(o, tree), here, fuel - 1);
    assert ResolveIncludeTree(ts, name, Some(tree)) == tree;
  }

  /** In every run, only an object that shares its uid with another one let through is reported by mistake. */
  lemma MistakenSharesUID(ts: TemplateSet, root: Object, fuel: nat, o: Object)
    ensures var st := RenderObject(ts, false, root, INITIAL, fuel).state;
            UIDsRecorded(st) && (o in st.mistaken ==> SharesUID(st, o))
  {
    RenderKeepsOnce(ts, root, INITIAL, fuel);
  }

  /** And any two such objects can be told wrong of: here `b` is reported because `a` was let through. */
  lemma SharedUIDMistaken(embeddedNames: set<string>, fileNames: set<string>, overlayNames: set<string>, a: Object, b: Object, fuel: nat)
    returns (embedded: Templates, overlay: Templates, root: Object)
    requires "DefaultResource" in embeddedNames && a != b && a.uid == b.uid && fuel > 11
    requires DispatchName(embeddedNames + overlayNames, a) == a.kind && DispatchName(embeddedNames + overlayNames, b) == b.kind
    ensures embedded.Keys == embeddedNames && overlay.Keys == overlayNames
    ensures var out := RenderObject(BuildTemplateSet(embedded, fileNames, overlay), false, root, INITIAL, fuel);
            !Stopped(out) && b in out.state.mistaken && out.state.runs[(b.kind, b)] == 0
  {
    root := Other(a);
    var last := Ask(Render(Fetched(b)), (text: string) => Done);
    var p := Ask(Render(Fetched(a)), (text: string) => last);
    embedded, overlay := Uniform(embeddedNames, OnlyOn(root, p)), Uniform(overlayNames, OnlyOn(root, p));
    var tree := UniformPlays(embeddedNames, fileNames, overlayNames, root, p, a);
    var tree' := UniformPlays(embeddedNames, fileNames, overlayNames, root, p, b);
    SharedRun(BuildTemplateSet(embedded, fileNames, overlay), root, p, tree, tree', a, b, fuel);
  }

  lemma SharedRun(ts: TemplateSet, root: Object, p: Program, tree: Tree, tree': Tree, a: Object, b: Object, fuel: nat)
    requires fuel > 11
    requires Plays(ts, root, p, root, tree, a.kind) && Plays(ts, root, p, a, tree, a.kind) && Plays(ts, root, p, b, tree', b.kind)
    requires a != b && a.uid == b.uid && a.uid != root.uid
    requires p.Ask? && p.query == Render(Fetched(a))
    requires var last := p.next(""); last.Ask? && last.query == Render(Fetched(b)) && last.next(b.title + " is already printed") == Done
    ensures var out := RenderObject(ts, false, root, INITIAL, fuel);
            !Stopped(out) && b in out.state.mistaken && out.state.runs[(b.kind, b)] == 0
  {
    var data := SelfData(root, tree);
    var st := Entered(INITIAL, tree, a.kind, root);
    EnteredCounts(INITIAL, tree, a.kind, root, b.kind, b);
    RootRender(ts, root, p, tree, a.kind, fuel);
    AskedRender(ts, root, p, tree, a.kind, a, tree, p, data, st, fuel - 3);
    EnteredCounts(st, tree, a.kind, a, b.kind, b);
    var st' := Entered(st, tree, a.kind, a);
    KeptBackRender(ts, tree', b, tree, p.next(""), data, st', fuel - 4);
    RunDone(ts, tree, data, KeptBack(st'.(dispatched := st'.dispatched + {b}), b), fuel - 5);
  }

  lemma KeptBackRender(ts: TemplateSet, tree: Tree, o: Object, here: Tree, asks: Program, data: Data, st: State, fuel: nat)
    requires fuel > 4
    requires FindTemplateName(ts, o.kind, o.group) == (tree, o.kind) && o.uid in st.renderedUIDs
    requires asks.Ask? && asks.query == Render(Fetched(o))
    ensures Run(ts, false, here, asks, data, st, fuel) ==
            Run(ts, false, here, asks.next(o.title + " is already printed"), data, KeptBack(st.(dispatched := st.dispatched + {o}), o), fuel - 1)
  {
    var out := Outcome(o.title + " is already printed", false, false, KeptBack(st.(dispatched := st.dispatched + {o}), o));
    assert RenderObject(ts, false, o, st, fuel - 2) == out;
    assert Answer(ts, false, Render(Fetched(o)), data, st, fuel - 1) == out;
  }
}
