/** Compiling a JSON schema into a plan: fixed scaffold text alternating with typed holes. */
module SchemaPlan {
  import opened Bytes
  import opened JsonAccess
  import opened JsonParser
  import JsonPrinter

  datatype ValKind = KInt | KNum | KBool | KStr | KAny

  datatype Seg = Fixed(text: seq<Byte>) | Hole(kind: ValKind)

  // "type", "properties", "required", and the type names
  const TYPE: seq<Byte> := [0x74, 0x79, 0x70, 0x65]
  const PROPERTIES: seq<Byte> := [0x70, 0x72, 0x6F, 0x70, 0x65, 0x72, 0x74, 0x69, 0x65, 0x73]
  const REQUIRED: seq<Byte> := [0x72, 0x65, 0x71, 0x75, 0x69, 0x72, 0x65, 0x64]
  const OBJECT: seq<Byte> := [0x6F, 0x62, 0x6A, 0x65, 0x63, 0x74]
  const INTEGER: seq<Byte> := [0x69, 0x6E, 0x74, 0x65, 0x67, 0x65, 0x72]
  const NUMBER: seq<Byte> := [0x6E, 0x75, 0x6D, 0x62, 0x65, 0x72]
  const BOOLEAN: seq<Byte> := [0x62, 0x6F, 0x6F, 0x6C, 0x65, 0x61, 0x6E]
  const STRING: seq<Byte> := [0x73, 0x74, 0x72, 0x69, 0x6E, 0x67]

  const MAX_SCHEMA_DEPTH: nat := 16

  function Strings(a: seq<Json>): seq<seq<Byte>> {
    if a == [] then [] else (if a[0].JStr? then [a[0].s] else []) + Strings(a[1..])
  }

  function RequiredKeys(sch: Json): seq<seq<Byte>> {
    var r := Get(sch, REQUIRED);
    if r.Some? && r.value.JArr? then Strings(r.value.elems) else []
  }

  function Keep(props: seq<Member>, req: seq<seq<Byte>>): seq<Member> {
    if props == [] then []
    else (if req == [] || props[0].key in req then [props[0]] else []) + Keep(props[1..], req)
  }

  /** The properties the plan emits: the required ones, or all when none is required. */
  function Selected(sch: Json): seq<Member> {
    var p := Get(sch, PROPERTIES);
    if p.Some? && p.value.JObj? then Keep(p.value.members, RequiredKeys(sch)) else []
  }

  function Lead(i: nat, key: seq<Byte>): seq<Byte> {
    (if i == 0 then [] else [COMMA, SPACE]) + JsonPrinter.Escaped(key) + [COLON, SPACE]
  }

  function ScalarKind(t: Option<seq<Byte>>): ValKind {
    if t == Some(INTEGER) then KInt else if t == Some(NUMBER) then KNum else if t == Some(BOOLEAN) then KBool
    else if t == Some(STRING) then KStr else KAny
  }

  function CompileValue(sch: Json, depth: nat): Option<seq<Seg>>
    decreases MAX_SCHEMA_DEPTH + 1 - depth, 0, 0
  {
    if depth > MAX_SCHEMA_DEPTH then None
    else
      var t := StrOf(sch, TYPE);
      if t == Some(OBJECT) then
        if Selected(sch) == [] then None
        else
          var m := CompileMembers(Selected(sch), 0, depth);
          if m.None? then None else Some([Fixed([LBRACE])] + m.value + [Fixed([RBRACE])])
      else if ScalarKind(t) == KStr then Some([Fixed([QUOTE]), Hole(KStr)])
      else Some([Hole(ScalarKind(t))])
  }

  /** The segments of the properties from index `i` on. */
  function CompileMembers(keys: seq<Member>, i: nat, depth: nat): Option<seq<Seg>>
    requires i <= |keys| && depth <= MAX_SCHEMA_DEPTH
    decreases MAX_SCHEMA_DEPTH - depth, 1, |keys| - i
  {
    if i == |keys| then Some([])
    else
      var v := CompileValue(keys[i].val, depth + 1);
      if v.None? then None
      else
        var rest := CompileMembers(keys, i + 1, depth);
        if rest.None? then None else Some([Fixed(Lead(i, keys[i].key))] + v.value + rest.value)
  }

  /** Appending a segment, fixed text running into fixed text. */
  function Push(plan: seq<Seg>, s: Seg): seq<Seg> {
    if plan != [] && plan[|plan| - 1].Fixed? && s.Fixed?
    then plan[..|plan| - 1] + [Fixed(plan[|plan| - 1].text + s.text)]
    else plan + [s]
  }

  function Merge(segs: seq<Seg>): seq<Seg>
    decreases |segs|
  {
    if segs == [] then [] else Push(Merge(segs[..|segs| - 1]), segs[|segs| - 1])
  }

  function CompileSchema(sch: Json): Option<seq<Seg>> {
    var s := CompileValue(sch, 0);
    if s.None? then None else Some(Merge(s.value))
  }

  // ---------------------------------------------------------------- the compiler

  class PlanBuilder {
    var segs: seq<Seg>

    constructor ()
      ensures segs == []
    {
      segs := [];
    }

    method Value(sch: Json, depth: nat) returns (ok: bool)
      modifies this
      ensures ok == CompileValue(sch, depth).Some?
      ensures ok ==> segs == old(segs) + CompileValue(sch, depth).value
      decreases MAX_SCHEMA_DEPTH + 1 - depth, 0
    {
      if depth > MAX_SCHEMA_DEPTH { return false; }
      var t := StrOf(sch, TYPE);
      if t == Some(OBJECT) {
        var keys := Selected(sch);
        if keys == [] { return false; }
        ok := Members(keys, depth);
      } else {
        var kind := ScalarKind(t);
        if kind == KStr {
          segs := segs + [Fixed([QUOTE])];
        }
        segs := segs + [Hole(kind)];
        ok := true;
      }
    }

    method Members(keys: seq<Member>, depth: nat) returns (ok: bool)
      requires depth <= MAX_SCHEMA_DEPTH
      modifies this
      ensures ok == CompileMembers(keys, 0, depth).Some?
      ensures ok ==> segs == old(segs) + ([Fixed([LBRACE])] + CompileMembers(keys, 0, depth).value + [Fixed([RBRACE])])
      decreases MAX_SCHEMA_DEPTH - depth, 1
    {
      hide CompileValue, Continues, Lead;
      segs := segs + [Fixed([LBRACE])];
      ghost var start := segs;
      ghost var done: seq<Seg> := [];
      ContinuesStart(CompileMembers(keys, 0, depth));
      for i := 0 to |keys|
        invariant segs == start + done
        invariant Continues(CompileMembers(keys, 0, depth), done, CompileMembers(keys, i, depth))
      {
        ghost var before, m := segs, CompileMembers(keys, i, depth);
        ContinuesFails(CompileMembers(keys, 0, depth), done, m);
        segs := segs + [Fixed(Lead(i, keys[i].key))];
        ok := Value(keys[i].val, depth + 1);
        if !ok { return; }
        ghost var mine := [Fixed(Lead(i, keys[i].key))] + CompileValue(keys[i].val, depth + 1).value;
        assert segs == before + mine;
        ContinuesStep(CompileMembers(keys, 0, depth), done, mine, CompileMembers(keys, i + 1, depth), m);
        done := done + mine;
      }
      ContinuesEnd(CompileMembers(keys, 0, depth), done);
      Wraps(old(segs), [Fixed([LBRACE])], done, [Fixed([RBRACE])]);
      segs := segs + [Fixed([RBRACE])];
      ok := true;
    }
  }

  lemma Wraps(a: seq<Seg>, l: seq<Seg>, d: seq<Seg>, r: seq<Seg>)
    ensures a + l + d + r == a + (l + d + r)
  {
  }

  /** `whole` is `done` followed by `rest`, and fails with it. */
  ghost predicate Continues(whole: Option<seq<Seg>>, done: seq<Seg>, rest: Option<seq<Seg>>) {
    whole == if rest.None? then None else Some(done + rest.value)
  }

  lemma ContinuesStart(whole: Option<seq<Seg>>)
    ensures Continues(whole, [], whole)
  {
    if whole.Some? { assert [] + whole.value == whole.value; }
  }

  lemma ContinuesEnd(whole: Option<seq<Seg>>, done: seq<Seg>)
    requires Continues(whole, done, Some([]))
    ensures whole == Some(done)
  {
    assert done + [] == done;
  }

  lemma ContinuesFails(whole: Option<seq<Seg>>, done: seq<Seg>, rest: Option<seq<Seg>>)
    requires Continues(whole, done, rest)
    ensures whole.None? <==> rest.None?
  {
  }

  lemma ContinuesStep(whole: Option<seq<Seg>>, done: seq<Seg>, mine: seq<Seg>, rest: Option<seq<Seg>>,
                      here: Option<seq<Seg>>)
    requires Continues(whole, done, here)
    requires here == if rest.None? then None else Some(mine + rest.value)
    ensures Continues(whole, done + mine, rest)
  {
    if rest.Some? { assert done + mine + rest.value == done + (mine + rest.value); }
  }

  lemma MergeSnoc(segs: seq<Seg>, i: nat)
    requires i < |segs|
    ensures Merge(segs[..i + 1]) == Push(Merge(segs[..i]), segs[i])
  {
    assert segs[..i + 1][..i] == segs[..i];
  }

  method MergeSegs(segs: seq<Seg>) returns (merged: seq<Seg>)
    ensures merged == Merge(segs)
  {
    hide Merge;
    MergeNone();
    merged := [];
    for i := 0 to |segs|
      invariant merged == Merge(segs[..i])
    {
      MergeSnoc(segs, i);
      var n := |merged|;
      if n > 0 && merged[n - 1].Fixed? && segs[i].Fixed? {
        merged := merged[..n - 1] + [Fixed(merged[n - 1].text + segs[i].text)];
      } else {
        merged := merged + [segs[i]];
      }
    }
    assert segs[..|segs|] == segs;
  }

  lemma MergeNone()
    ensures Merge([]) == []
  {
  }

  method Compile(sch: Json) returns (plan: Option<seq<Seg>>)
    ensures plan == CompileSchema(sch)
  {
    hide CompileValue, Merge;
    var b := new PlanBuilder();
    var ok := b.Value(sch, 0);
    if !ok { return None; }
    assert [] + CompileValue(sch, 0).value == CompileValue(sch, 0).value;
    var merged := MergeSegs(b.segs);
    return Some(merged);
  }

  // ---------------------------------------------------------------- alternation

  predicate NoTwoHoles(segs: seq<Seg>) { forall k :: 0 <= k < |segs| - 1 ==> segs[k].Fixed? || segs[k + 1].Fixed? }

  predicate NoTwoFixed(segs: seq<Seg>) { forall k :: 0 <= k < |segs| - 1 ==> segs[k].Hole? || segs[k + 1].Hole? }

  predicate NoEmptyText(segs: seq<Seg>) { forall k :: 0 <= k < |segs| ==> segs[k].Fixed? ==> segs[k].text != [] }

  /** What a plan is: at least one segment, text and holes in turn, no empty text. */
  predicate Alternates(plan: seq<Seg>) { plan != [] && NoTwoHoles(plan) && NoTwoFixed(plan) && NoEmptyText(plan) }

  lemma {:induction false} ValueShape(sch: Json, depth: nat)
    requires CompileValue(sch, depth).Some?
    ensures var s := CompileValue(sch, depth).value; s != [] && NoTwoHoles(s) && NoEmptyText(s)
    decreases MAX_SCHEMA_DEPTH + 1 - depth, 0, 0
  {
    hide StrOf, Selected, ScalarKind;
    if StrOf(sch, TYPE) == Some(OBJECT) { MembersShape(Selected(sch), 0, depth); }
  }

  lemma {:induction false} MembersShape(keys: seq<Member>, i: nat, depth: nat)
    requires i <= |keys| && depth <= MAX_SCHEMA_DEPTH && CompileMembers(keys, i, depth).Some?
    ensures var s := CompileMembers(keys, i, depth).value;
            NoTwoHoles(s) && NoEmptyText(s) && (s != [] ==> s[0].Fixed?)
    decreases MAX_SCHEMA_DEPTH - depth, 1, |keys| - i
  {
    hide CompileValue, JsonPrinter.Escaped;
    if i < |keys| {
      ValueShape(keys[i].val, depth + 1);
      MembersShape(keys, i + 1, depth);
    }
  }

  lemma PushShape(plan: seq<Seg>, s: Seg)
    requires NoTwoHoles(plan) && NoTwoFixed(plan) && NoEmptyText(plan) && (s.Fixed? ==> s.text != [])
    requires plan != [] ==> plan[|plan| - 1].Fixed? || s.Fixed?
    ensures var m := Push(plan, s);
            NoTwoHoles(m) && NoTwoFixed(m) && NoEmptyText(m) && m != [] && m[|m| - 1].Fixed? == s.Fixed?
  {
  }

  lemma MergeLast(segs: seq<Seg>)
    requires segs != []
    ensures Merge(segs) == Push(Merge(segs[..|segs| - 1]), segs[|segs| - 1])
  {
  }

  lemma FrontShape(segs: seq<Seg>)
    requires segs != [] && NoTwoHoles(segs) && NoEmptyText(segs)
    ensures var n := |segs| - 1;
            && NoTwoHoles(segs[..n]) && NoEmptyText(segs[..n]) && (segs[n].Fixed? ==> segs[n].text != [])
            && (n > 0 ==> segs[..n][n - 1].Fixed? || segs[n].Fixed?)
  {
  }

  lemma {:induction false} MergeShape(segs: seq<Seg>)
    requires NoTwoHoles(segs) && NoEmptyText(segs)
    ensures var m := Merge(segs);
            NoTwoHoles(m) && NoTwoFixed(m) && NoEmptyText(m) && (segs != [] <==> m != [])
            && (m != [] ==> m[|m| - 1].Fixed? == segs[|segs| - 1].Fixed?)
    decreases |segs|
  {
    if segs != [] {
      hide Merge, Push, NoTwoHoles, NoTwoFixed, NoEmptyText;
      var n := |segs| - 1;
      FrontShape(segs);
      MergeShape(segs[..n]);
      MergeLast(segs);
      PushShape(Merge(segs[..n]), segs[n]);
    }
  }

  /** Every compiled plan alternates scaffold text and holes. */
  lemma PlansAlternate(sch: Json)
    requires CompileSchema(sch).Some?
    ensures Alternates(CompileSchema(sch).value)
  {
    ValueShape(sch, 0);
    MergeShape(CompileValue(sch, 0).value);
  }
}
