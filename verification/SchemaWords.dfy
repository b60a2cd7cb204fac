/** The texts a schema allows, set down from the schema itself, and the proof that the guard of the
    compiled plan stops at exactly those. */
module SchemaWords {
  import opened Bytes
  import opened JsonAccess
  import opened JsonGrammar
  import opened JsonParser
  import JsonPrinter
  import opened SchemaPlan
  import S = SchemaGuard
  import opened SchemaFill
  import opened SchemaAccept
  import SchemaText
  import C = SchemaCompletion

  // ---------------------------------------------------------------- what a schema asks for

  /** The keys and type names, spelled out. */
  lemma Spelled()
    ensures TYPE == Ascii("type") && PROPERTIES == Ascii("properties") && REQUIRED == Ascii("required")
    ensures OBJECT == Ascii("object") && INTEGER == Ascii("integer") && NUMBER == Ascii("number")
    ensures BOOLEAN == Ascii("boolean") && STRING == Ascii("string")
  {
  }

  predicate Typed(sch: Json, t: seq<Byte>) { IsMember(sch, TYPE, JStr(t)) }

  /** The key is one of the strings listed as required. */
  ghost predicate Requires(sch: Json, key: seq<Byte>) {
    exists a: seq<Json>, k :: IsMember(sch, REQUIRED, JArr(a)) && 0 <= k < |a| && a[k] == JStr(key)
  }

  /** Required, or nothing is. */
  ghost predicate Wants(sch: Json, key: seq<Byte>) {
    Requires(sch, key) || forall other: seq<Byte> :: !Requires(sch, other)
  }

  /** `keys` are the properties the schema wants, in its order. */
  ghost predicate Filtered(sch: Json, props: seq<Member>, keys: seq<Member>)
    decreases |props|
  {
    if props == [] then keys == []
    else if Wants(sch, props[0].key) then keys != [] && keys[0] == props[0] && Filtered(sch, props[1..], keys[1..])
    else Filtered(sch, props[1..], keys)
  }

  ghost predicate Properties(sch: Json, keys: seq<Member>) {
    keys != [] && exists props: seq<Member> :: IsMember(sch, PROPERTIES, JObj(props)) && Filtered(sch, props, keys)
  }

  /** One to nineteen digits, perhaps after a minus. */
  ghost predicate IntegerText(w: seq<Byte>) {
    exists neg, ds :: Digits(ds) && |ds| <= 19 && w == SignText(neg) + ds
  }

  /** A JSON number, perhaps after some minus signs, of at most forty bytes in all. */
  ghost predicate NumericText(w: seq<Byte>) {
    |w| <= 40 && exists k: nat, n :: ValidNumber(n) && !n.neg && w == Minuses(k) + NumberText(n)
  }

  /** A JSON string of at most 4097 characters, not counting escapes. */
  ghost predicate StringWord(w: seq<Byte>) {
    exists cs :: ValidChars(cs) && |cs| <= 4097 && w == [QUOTE] + CharsText(cs) + [QUOTE]
  }

  /** Any JSON text that stops with its value, or one byte after a number. */
  ghost predicate AnyText(w: seq<Byte>) {
    exists d :: ValidDoc(d) && |d.post| <= (if d.val.Num? then 1 else 0) && w == DocText(d)
  }

  /** The texts of a schema, to sixteen levels of nesting. */
  ghost predicate Writes(sch: Json, depth: nat, w: seq<Byte>)
    decreases 17 - depth, 0, 0
  {
    && depth <= 16
    && if Typed(sch, OBJECT) then
         exists keys, body ::
           Properties(sch, keys) && WritesMembers(keys, 0, depth, body) && w == [LBRACE] + body + [RBRACE]
       else if Typed(sch, INTEGER) then IntegerText(w)
       else if Typed(sch, NUMBER) then NumericText(w)
       else if Typed(sch, BOOLEAN) then w == WordText(TrueWord) || w == WordText(FalseWord)
       else if Typed(sch, STRING) then StringWord(w)
       else AnyText(w)
  }

  /** From the `i`-th key on: the quoted key, a colon and a space, the value, and a comma and a space before
      the next. */
  ghost predicate WritesMembers(keys: seq<Member>, i: nat, depth: nat, w: seq<Byte>)
    requires i <= |keys| && depth <= 16
    decreases 16 - depth, 1, |keys| - i
  {
    if i == |keys| then w == []
    else
      var k, j := keys[i], i + 1;
      var lead := (if i == 0 then [] else [COMMA, SPACE]) + JsonPrinter.Escaped(k.key) + [COLON, SPACE];
      exists v, rest :: Writes(k.val, depth + 1, v) && WritesMembers(keys, j, depth, rest) && w == lead + v + rest
  }

  // ---------------------------------------------------------------- the compiler selects those

  lemma TypeIs(sch: Json, t: seq<Byte>)
    ensures Typed(sch, t) <==> StrOf(sch, TYPE) == Some(t)
  {
    StrOfIs(sch, TYPE, t);
  }

  lemma {:induction false} StringsAre(a: seq<Json>, s: seq<Byte>)
    ensures s in Strings(a) <==> exists k :: 0 <= k < |a| && a[k] == JStr(s)
    decreases |a|
  {
    if a != [] {
      StringsAre(a[1..], s);
      forall k | 1 <= k < |a| ensures a[k] == a[1..][k - 1] {}
      if s in Strings(a[1..]) {
        var k :| 0 <= k < |a[1..]| && a[1..][k] == JStr(s);
        assert a[k + 1] == JStr(s);
      }
    }
  }

  lemma RequiredAre(sch: Json, key: seq<Byte>)
    ensures key in RequiredKeys(sch) <==> Requires(sch, key)
  {
    hide IsMember, Get, Strings;
    var r := Get(sch, REQUIRED);
    forall a: seq<Json> ensures IsMember(sch, REQUIRED, JArr(a)) <==> r == Some(JArr(a)) {
      GetIsFirst(sch, REQUIRED, JArr(a));
    }
    if r.Some? && r.value.JArr? { StringsAre(r.value.elems, key); }
  }

  lemma WantsAre(sch: Json, key: seq<Byte>)
    ensures Wants(sch, key) <==> RequiredKeys(sch) == [] || key in RequiredKeys(sch)
  {
    hide Requires, RequiredKeys;
    forall other: seq<Byte> ensures other in RequiredKeys(sch) <==> Requires(sch, other) { RequiredAre(sch, other); }
    if RequiredKeys(sch) != [] { assert RequiredKeys(sch)[0] in RequiredKeys(sch); }
  }

  lemma {:induction false} KeepIs(sch: Json, props: seq<Member>, keys: seq<Member>)
    ensures Filtered(sch, props, keys) <==> keys == Keep(props, RequiredKeys(sch))
    decreases |props|
  {
    hide Wants, RequiredKeys;
    if props != [] {
      WantsAre(sch, props[0].key);
      KeepIs(sch, props[1..], keys);
      if keys != [] {
        KeepIs(sch, props[1..], keys[1..]);
        assert keys == [keys[0]] + keys[1..];
      }
    }
  }

  lemma SelectedAre(sch: Json, keys: seq<Member>)
    ensures Properties(sch, keys) <==> keys == Selected(sch) && keys != []
  {
    hide IsMember, Get, Keep, Filtered, RequiredKeys;
    var p := Get(sch, PROPERTIES);
    forall props: seq<Member> ensures IsMember(sch, PROPERTIES, JObj(props)) <==> p == Some(JObj(props)) {
      GetIsFirst(sch, PROPERTIES, JObj(props));
    }
    forall props: seq<Member> ensures Filtered(sch, props, keys) <==> keys == Keep(props, RequiredKeys(sch)) {
      KeepIs(sch, props, keys);
    }
  }

  // ---------------------------------------------------------------- fillings of parts

  lemma JoinFilling(a: seq<Seg>, b: seq<Seg>, u: seq<Byte>, v: seq<Byte>)
    requires IsFilling(a, u) && IsFilling(b, v)
    ensures IsFilling(a + b, u + v)
  {
    hide Fits, FillText, Within, FillsText;
    var x :| AllFit(a, x) && AllWithin(x) && FillsText(x) == u;
    var y :| AllFit(b, y) && AllWithin(y) && FillsText(y) == v;
    SchemaText.FillsConcat(x, y);
    assert AllFit(a + b, x + y) && AllWithin(x + y);
  }

  lemma SplitFilling(a: seq<Seg>, b: seq<Seg>, w: seq<Byte>) returns (u: seq<Byte>, v: seq<Byte>)
    requires IsFilling(a + b, w)
    ensures IsFilling(a, u) && IsFilling(b, v) && w == u + v
  {
    hide AllFit, FillsText, Within, SchemaText.AllCanonical;
    var z :| AllFit(a + b, z) && AllWithin(z) && FillsText(z) == w;
    SchemaText.FitLength(a + b, z);
    SchemaText.SplitFit(a, b, z);
    var x, y := z[..|a|], z[|a|..];
    assert AllWithin(x) && AllWithin(y);
    u, v := FillsText(x), FillsText(y);
  }

  lemma NoFilling(w: seq<Byte>)
    ensures IsFilling([], w) <==> w == []
  {
    assert AllFit([], []) && AllWithin([]) && FillsText([]) == [];
  }

  lemma FixedFilling(t: seq<Byte>, w: seq<Byte>)
    ensures IsFilling([Fixed(t)], w) <==> w == t
  {
    SchemaText.FillsOne(FFixed(t));
    assert AllFit([Fixed(t)], [FFixed(t)]) && AllWithin([FFixed(t)]);
    if IsFilling([Fixed(t)], w) {
      var z :| AllFit([Fixed(t)], z) && AllWithin(z) && FillsText(z) == w;
      assert z == [FFixed(t)];
    }
  }

  ghost predicate Fills(k: ValKind, w: seq<Byte>) {
    exists f :: Fits(Hole(k), f) && Within(f) && FillText(f) == w
  }

  lemma HoleFilling(k: ValKind, w: seq<Byte>)
    ensures IsFilling([Hole(k)], w) <==> Fills(k, w)
  {
    hide Fits, FillText, Within;
    if Fills(k, w) {
      var f :| Fits(Hole(k), f) && Within(f) && FillText(f) == w;
      SchemaText.FillsOne(f);
      assert AllFit([Hole(k)], [f]) && AllWithin([f]);
    }
    if IsFilling([Hole(k)], w) {
      var z :| AllFit([Hole(k)], z) && AllWithin(z) && FillsText(z) == w;
      assert z == [z[0]];
      SchemaText.FillsOne(z[0]);
    }
  }

  /** Joining neighbouring fixed texts does not change the fillings. */
  lemma PushFilling(m: seq<Seg>, s: Seg, w: seq<Byte>)
    ensures IsFilling(Push(m, s), w) <==> IsFilling(m + [s], w)
  {
    hide IsFilling;
    if m != [] && m[|m| - 1].Fixed? && s.Fixed? {
      var i, a, b := m[..|m| - 1], m[|m| - 1].text, s.text;
      assert m == i + [Fixed(a)];
      assert i + [Fixed(a)] + [s] == i + [Fixed(a), s];
      if IsFilling(i + [Fixed(a + b)], w) {
        var u, v := SplitFilling(i, [Fixed(a + b)], w);
        FixedFilling(a + b, v);
        FixedFilling(a, a);
        FixedFilling(b, b);
        JoinFilling(i, [Fixed(a)], u, a);
        JoinFilling(m, [s], u + a, b);
        assert u + a + b == u + (a + b);
      }
      if IsFilling(m + [s], w) {
        var x, v := SplitFilling(m, [s], w);
        var u, y := SplitFilling(i, [Fixed(a)], x);
        FixedFilling(b, v);
        FixedFilling(a, y);
        FixedFilling(a + b, a + b);
        JoinFilling(i, [Fixed(a + b)], u, a + b);
        assert u + a + b == u + (a + b);
      }
    }
  }

  lemma {:induction false} MergeFilling(segs: seq<Seg>, w: seq<Byte>)
    ensures IsFilling(Merge(segs), w) <==> IsFilling(segs, w)
    decreases |segs|
  {
    hide IsFilling, Push;
    if segs != [] {
      var m, s := segs[..|segs| - 1], segs[|segs| - 1];
      assert segs == m + [s];
      PushFilling(Merge(m), s, w);
      if IsFilling(Merge(m) + [s], w) {
        var u, v := SplitFilling(Merge(m), [s], w);
        MergeFilling(m, u);
        JoinFilling(m, [s], u, v);
      }
      if IsFilling(segs, w) {
        var u, v := SplitFilling(m, [s], w);
        MergeFilling(m, u);
        JoinFilling(Merge(m), [s], u, v);
      }
    }
  }

  // ---------------------------------------------------------------- holes

  lemma IntegerFills(w: seq<Byte>)
    ensures Fills(KInt, w) <==> IntegerText(w)
  {
    if IntegerText(w) {
      var neg, ds :| Digits(ds) && |ds| <= 19 && w == SignText(neg) + ds;
      assert Fits(Hole(KInt), FInt(neg, ds)) && Within(FInt(neg, ds));
    }
  }

  lemma NumberFills(w: seq<Byte>)
    ensures Fills(KNum, w) <==> NumericText(w)
  {
    hide NumberText, ValidNumber;
    if NumericText(w) {
      var k: nat, n :| ValidNumber(n) && !n.neg && w == Minuses(k) + NumberText(n);
      assert Fits(Hole(KNum), FNum(k, n)) && Within(FNum(k, n)) && FillText(FNum(k, n)) == w;
    }
    if Fills(KNum, w) {
      var f :| Fits(Hole(KNum), f) && Within(f) && FillText(f) == w;
      assert ValidNumber(f.num) && !f.num.neg && w == Minuses(f.minuses) + NumberText(f.num);
    }
  }

  lemma BooleanFills(w: seq<Byte>)
    ensures Fills(KBool, w) <==> w == WordText(TrueWord) || w == WordText(FalseWord)
  {
    hide WordText;
    assert Fits(Hole(KBool), FBool(TrueWord)) && Within(FBool(TrueWord));
    assert Fits(Hole(KBool), FBool(FalseWord)) && Within(FBool(FalseWord));
    assert FillText(FBool(TrueWord)) == WordText(TrueWord) && FillText(FBool(FalseWord)) == WordText(FalseWord);
  }

  lemma StringFills(w: seq<Byte>)
    ensures IsFilling([Fixed([QUOTE]), Hole(KStr)], w) <==> StringWord(w)
  {
    hide IsFilling, Fills, CharsText, ValidChars;
    assert [Fixed([QUOTE]), Hole(KStr)] == [Fixed([QUOTE])] + [Hole(KStr)];
    FixedFilling([QUOTE], [QUOTE]);
    if StringWord(w) {
      var cs :| ValidChars(cs) && |cs| <= 4097 && w == [QUOTE] + CharsText(cs) + [QUOTE];
      StrIsFill(cs);
      HoleFilling(KStr, CharsText(cs) + [QUOTE]);
      JoinFilling([Fixed([QUOTE])], [Hole(KStr)], [QUOTE], CharsText(cs) + [QUOTE]);
      assert w == [QUOTE] + (CharsText(cs) + [QUOTE]);
    }
    if IsFilling([Fixed([QUOTE]), Hole(KStr)], w) {
      var u, v := SplitFilling([Fixed([QUOTE])], [Hole(KStr)], w);
      FixedFilling([QUOTE], u);
      HoleFilling(KStr, v);
      var cs := FillIsStr(v);
      assert w == [QUOTE] + CharsText(cs) + [QUOTE];
    }
  }

  lemma StrIsFill(cs: seq<Char>)
    requires ValidChars(cs) && |cs| <= 4097
    ensures Fills(KStr, CharsText(cs) + [QUOTE])
  {
    hide CharsText, ValidChars;
    assert Fits(Hole(KStr), FStr(cs)) && Within(FStr(cs)) && FillText(FStr(cs)) == CharsText(cs) + [QUOTE];
  }

  lemma FillIsStr(v: seq<Byte>) returns (cs: seq<Char>)
    requires Fills(KStr, v)
    ensures ValidChars(cs) && |cs| <= 4097 && v == CharsText(cs) + [QUOTE]
  {
    hide CharsText, ValidChars;
    var f :| Fits(Hole(KStr), f) && Within(f) && FillText(f) == v;
    cs := f.chars;
  }

  lemma AnyFills(w: seq<Byte>)
    ensures Fills(KAny, w) <==> AnyText(w)
  {
    hide ValidDoc, DocText;
    if AnyText(w) {
      var d :| ValidDoc(d) && |d.post| <= (if d.val.Num? then 1 else 0) && w == DocText(d);
      assert Fits(Hole(KAny), FAny(d)) && Within(FAny(d)) && FillText(FAny(d)) == w;
    }
  }

  // ---------------------------------------------------------------- schemas

  lemma ScalarWrites(sch: Json, depth: nat, w: seq<Byte>)
    requires CompileValue(sch, depth).Some? && !Typed(sch, OBJECT)
    ensures Writes(sch, depth, w) <==> IsFilling(CompileValue(sch, depth).value, w)
  {
    hide IsFilling, Fills, Typed, StrOf, IntegerText, NumericText, StringWord, AnyText, WordText, DocText;
    TypeIs(sch, OBJECT);
    TypeIs(sch, INTEGER);
    TypeIs(sch, NUMBER);
    TypeIs(sch, BOOLEAN);
    TypeIs(sch, STRING);
    var k := ScalarKind(StrOf(sch, TYPE));
    if k == KStr {
      StringFills(w);
    } else {
      HoleFilling(k, w);
      IntegerFills(w);
      NumberFills(w);
      BooleanFills(w);
      AnyFills(w);
    }
  }

  /** The segments of the properties from the `i`-th on. */
  lemma MembersSegments(keys: seq<Member>, i: nat, depth: nat) returns (a: seq<Seg>, b: seq<Seg>)
    requires i < |keys| && depth <= MAX_SCHEMA_DEPTH && CompileMembers(keys, i, depth).Some?
    ensures CompileValue(keys[i].val, depth + 1) == Some(a) && CompileMembers(keys, i + 1, depth) == Some(b)
    ensures CompileMembers(keys, i, depth).value == [Fixed(Lead(i, keys[i].key))] + a + b
  {
    hide CompileValue, Lead;
    a, b := CompileValue(keys[i].val, depth + 1).value, CompileMembers(keys, i + 1, depth).value;
  }

  lemma {:induction false} MembersWrite(keys: seq<Member>, i: nat, depth: nat, w: seq<Byte>)
    requires i <= |keys| && depth <= MAX_SCHEMA_DEPTH && CompileMembers(keys, i, depth).Some?
    ensures WritesMembers(keys, i, depth, w) <==> IsFilling(CompileMembers(keys, i, depth).value, w)
    decreases MAX_SCHEMA_DEPTH - depth, 1, |keys| - i
  {
    hide IsFilling, CompileMembers, Writes, JsonPrinter.Escaped;
    if i == |keys| {
      NoMembers(keys, depth);
      NoFilling(w);
    } else {
      var a, b := MembersSegments(keys, i, depth);
      var lead := Lead(i, keys[i].key);
      FixedFilling(lead, lead);
      if WritesMembers(keys, i, depth, w) {
        var v, rest :| Writes(keys[i].val, depth + 1, v) && WritesMembers(keys, i + 1, depth, rest)
                       && w == lead + v + rest;
        SchemaWrites(keys[i].val, depth + 1, v);
        MembersWrite(keys, i + 1, depth, rest);
        JoinFilling([Fixed(lead)], a, lead, v);
        JoinFilling([Fixed(lead)] + a, b, lead + v, rest);
      }
      if IsFilling([Fixed(lead)] + a + b, w) {
        var x, rest := SplitFilling([Fixed(lead)] + a, b, w);
        var u, v := SplitFilling([Fixed(lead)], a, x);
        FixedFilling(lead, u);
        SchemaWrites(keys[i].val, depth + 1, v);
        MembersWrite(keys, i + 1, depth, rest);
      }
    }
  }

  lemma NoMembers(keys: seq<Member>, depth: nat)
    requires depth <= MAX_SCHEMA_DEPTH
    ensures CompileMembers(keys, |keys|, depth) == Some([])
  {
  }

  /** The segments of an object. */
  lemma ObjectSegments(sch: Json, depth: nat) returns (m: seq<Seg>)
    requires CompileValue(sch, depth).Some? && Typed(sch, OBJECT)
    ensures depth <= MAX_SCHEMA_DEPTH && Selected(sch) != [] && CompileMembers(Selected(sch), 0, depth) == Some(m)
    ensures CompileValue(sch, depth).value == [Fixed([LBRACE])] + m + [Fixed([RBRACE])]
  {
    hide CompileMembers, Selected, StrOf, Typed;
    TypeIs(sch, OBJECT);
    m := CompileMembers(Selected(sch), 0, depth).value;
  }

  /** A text is allowed by a schema exactly when it fills the segments compiled from it. */
  lemma {:induction false} SchemaWrites(sch: Json, depth: nat, w: seq<Byte>)
    requires CompileValue(sch, depth).Some?
    ensures Writes(sch, depth, w) <==> IsFilling(CompileValue(sch, depth).value, w)
    decreases MAX_SCHEMA_DEPTH + 1 - depth, 0, 0
  {
    hide IsFilling, CompileValue, Typed, Properties, WritesMembers, CompileMembers, Selected;
    if Typed(sch, OBJECT) {
      var m := ObjectSegments(sch, depth);
      var keys := Selected(sch);
      SelectedAre(sch, keys);
      FixedFilling([LBRACE], [LBRACE]);
      FixedFilling([RBRACE], [RBRACE]);
      if Writes(sch, depth, w) {
        var ks, body :| Properties(sch, ks) && WritesMembers(ks, 0, depth, body) && w == [LBRACE] + body + [RBRACE];
        SelectedAre(sch, ks);
        MembersWrite(keys, 0, depth, body);
        JoinFilling([Fixed([LBRACE])], m, [LBRACE], body);
        JoinFilling([Fixed([LBRACE])] + m, [Fixed([RBRACE])], [LBRACE] + body, [RBRACE]);
      }
      if IsFilling([Fixed([LBRACE])] + m + [Fixed([RBRACE])], w) {
        var x, z := SplitFilling([Fixed([LBRACE])] + m, [Fixed([RBRACE])], w);
        var y, body := SplitFilling([Fixed([LBRACE])], m, x);
        FixedFilling([LBRACE], y);
        FixedFilling([RBRACE], z);
        MembersWrite(keys, 0, depth, body);
      }
    } else {
      ScalarWrites(sch, depth, w);
    }
  }

  /** For every schema that compiles, generation may stop at exactly the texts the schema allows. */
  lemma StopsExactly(sch: Json, w: seq<Byte>)
    requires CompileSchema(sch).Some?
    ensures var plan := CompileSchema(sch).value; var q := S.Run(plan, Some(S.Enter(plan, 0)), w);
            q.Some? && S.Complete(plan, q.value) <==> Writes(sch, 0, w)
  {
    hide S.Run, S.Complete, CompileValue, Merge, IsFilling, Writes;
    CompletesExactly(sch, w);
    MergeFilling(CompileValue(sch, 0).value, w);
    SchemaWrites(sch, 0, w);
  }

  /** A text is accepted without stranding the guard exactly when it begins a text the schema allows. */
  lemma BeginsExactly(sch: Json, w: seq<Byte>)
    requires CompileSchema(sch).Some?
    ensures var plan := CompileSchema(sch).value; var q := S.Run(plan, Some(S.Enter(plan, 0)), w);
            q.Some? && !C.Stranded(plan, q.value) <==> exists v :: Writes(sch, 0, w + v)
  {
    hide S.Run, S.Complete, CompileSchema, C.Stranded, Writes, S.Enter;
    var plan := CompileSchema(sch).value;
    var s := Some(S.Enter(plan, 0));
    var q := S.Run(plan, s, w);
    forall v: seq<Byte>
      ensures Writes(sch, 0, w + v)
              <==> S.Run(plan, q, v).Some? && S.Complete(plan, S.Run(plan, q, v).value)
    {
      StopsExactly(sch, w + v);
      S.RunConcat(plan, s, w, v);
    }
    if q.Some? {
      C.FinishesExactly(sch, w);
    } else {
      NeverMore(plan);
    }
  }

  lemma NeverMore(plan: seq<Seg>)
    ensures forall v :: S.Run(plan, None, v) == None
  {
  }

  // ---------------------------------------------------------------- which schemas compile

  /** Objects name at least one wanted property, and nest at most sixteen deep. */
  ghost predicate Usable(sch: Json, depth: nat)
    decreases 17 - depth
  {
    depth <= 16
    && (Typed(sch, OBJECT) ==>
          exists keys: seq<Member> ::
            Properties(sch, keys) && forall k :: 0 <= k < |keys| ==> Usable(keys[k].val, depth + 1))
  }

  lemma {:induction false} MembersCompile(keys: seq<Member>, i: nat, depth: nat)
    requires i <= |keys| && depth <= MAX_SCHEMA_DEPTH
    ensures CompileMembers(keys, i, depth).Some? <==> forall k :: i <= k < |keys| ==> Usable(keys[k].val, depth + 1)
    decreases MAX_SCHEMA_DEPTH - depth, 1, |keys| - i
  {
    hide CompileValue, Usable, Lead;
    if i < |keys| {
      Compiles(keys[i].val, depth + 1);
      MembersCompile(keys, i + 1, depth);
    }
  }

  lemma {:induction false} Compiles(sch: Json, depth: nat)
    ensures CompileValue(sch, depth).Some? <==> Usable(sch, depth)
    decreases MAX_SCHEMA_DEPTH + 1 - depth, 0, 0
  {
    hide StrOf, Typed, Properties, Selected, CompileMembers;
    if depth <= MAX_SCHEMA_DEPTH {
      TypeIs(sch, OBJECT);
      if Typed(sch, OBJECT) {
        forall keys: seq<Member> ensures Properties(sch, keys) <==> keys == Selected(sch) && keys != [] {
          SelectedAre(sch, keys);
        }
        MembersCompile(Selected(sch), 0, depth);
      }
    }
  }

  /** A schema compiles exactly when it is usable. */
  lemma CompilesExactly(sch: Json)
    ensures CompileSchema(sch).Some? <==> Usable(sch, 0)
  {
    hide CompileValue, Usable, Merge;
    Compiles(sch, 0);
  }
}
