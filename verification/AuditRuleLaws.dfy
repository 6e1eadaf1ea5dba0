/** Printing a kernel rule and parsing the result gives the rule back. */
module AuditRuleLaws {
  import opened Wrappers
  import opened AuditRule

  predicate NulFreeText(s: Option<Str>) {
    s.Some? ==> 0 !in s.value
  }

  /** No string of the rule contains a NUL. */
  ghost predicate NulFree(r: Rule) {
    && (forall i | 0 <= i < |r.fields| :: 0 !in r.fields[i].str)
    && NulFreeText(r.key) && NulFreeText(r.watch) && NulFreeText(r.tree) && NulFreeText(r.exe)
  }

  predicate Kept(a: Option<Str>, b: Option<Str>) {
    a.Some? ==> b == a
  }

  /** q is r with more fields parsed. */
  predicate Later(r: Rule, q: Rule) {
    && r.fields <= q.fields && (r.legacy ==> q.legacy)
    && Kept(r.key, q.key) && Kept(r.watch, q.watch) && Kept(r.tree, q.tree) && Kept(r.exe, q.exe)
    && q.prepend == r.prepend && q.listnr == r.listnr && q.action == r.action && q.mask == r.mask
  }

  /** The string a field stands for, as it was received. */
  function Raw(r: Rule, f: Field): Option<Str> {
    match KindOf(f.typ)
    case Lsm => Some(f.str)
    case Watch => r.watch
    case Dir => r.tree
    case Key => r.key
    case Exe => r.exe
    case _ => None
  }

  lemma RawPacked(q: Rule, r: Rule, i: nat, s: Str)
    requires Later(q, r) && NulFree(r) && i < |q.fields| && Raw(q, q.fields[i]) == Some(s)
    ensures q.fields[i] == r.fields[i] && Packed(r, q.fields[i]) == s
  {
    hide KindOf;
  }

  /** What a field with a string leaves behind, and that the next parse of the same string does the same. */
  lemma StringGrows(env: Env, r: Rule, t: nat, op: nat, s: Str, q: Rule)
    requires s != [] && HasString(KindOf(t)) && UseString(env, r, t, op, s) == Ok(q)
    requires KindOf(t) == Key ==> r.key.None?
    requires KindOf(t) == Exe ==> r.exe.None?
    ensures Later(r, q) && |q.fields| == |r.fields| + 1 && q.buflen == r.buflen + |s|
    ensures var f := q.fields[|r.fields|]; f.typ == t && f.op == op && f.val == 0
    ensures Raw(q, q.fields[|r.fields|]) == Some(s)
  {
    hide CStr, KindOf;
  }

  lemma StringLegacy(env: Env, r: Rule, x: bool, t: nat, op: nat, s: Str)
    requires s != [] && HasString(KindOf(t))
    ensures var a, b := UseString(env, r, t, op, s), UseString(env, r.(legacy := x), t, op, s);
            if a.Err? then b == a else b == Ok(a.value.(legacy := x))
  {
    hide CStr, KindOf;
  }

  lemma StringField(env: Env, r: Rule, rest: Str, t: nat, op: nat, v: nat, q: Rule, rest': Str)
    requires UseField(env, r, rest, t, op, v) == Ok((q, rest')) && HasString(KindOf(t))
    ensures Unpack(rest, v) == Ok(rest[..v]) && UseString(env, r, t, op, rest[..v]) == Ok(q) && rest' == rest[v..]
    ensures KindOf(t) == Key ==> r.key.None? && v <= MAX_KEY_LEN
    ensures KindOf(t) == Exe ==> r.exe.None?
  {
    hide CStr, KindOf, UseString;
  }

  lemma NumberField(env: Env, r: Rule, rest: Str, t: nat, op: nat, v: nat, q: Rule, rest': Str)
    requires UseField(env, r, rest, t, op, v) == Ok((q, rest')) && !HasString(KindOf(t))
    ensures rest' == rest && |q.fields| == |r.fields| + 1
    ensures q == r.(fields := q.fields, arch := q.arch, inode := q.inode)
    ensures var val := q.fields[|r.fields|].val; q.fields == r.fields + [Field(t, op, val, [])]
  {
    hide KindOf, UseString, Unpack;
  }

  lemma FieldGrows(env: Env, r: Rule, rest: Str, t: nat, op: nat, v: nat, q: Rule, rest': Str)
    requires UseField(env, r, rest, t, op, v) == Ok((q, rest'))
    ensures Later(r, q) && |q.fields| == |r.fields| + 1
    ensures var f := q.fields[|r.fields|]; f.typ == t && f.op == op
  {
    hide KindOf, UseField, UseString, Raw;
    if HasString(KindOf(t)) {
      hide Later;
      StringField(env, r, rest, t, op, v, q, rest');
      StringGrows(env, r, t, op, rest[..v], q);
    } else {
      NumberField(env, r, rest, t, op, v, q, rest');
    }
  }

  lemma FieldLegacy(env: Env, r: Rule, x: bool, rest: Str, t: nat, op: nat, v: nat)
    ensures var a, b := UseField(env, r, rest, t, op, v), UseField(env, r.(legacy := x), rest, t, op, v);
            if a.Err? then b == a else b == Ok((a.value.0.(legacy := x), a.value.1))
  {
    hide CStr, KindOf, UseString;
    if HasString(KindOf(t)) && Unpack(rest, v).Ok? { StringLegacy(env, r, x, t, op, rest[..v]); }
  }

  lemma LegacyField(env: Env, r: Rule, rest: Str, op: nat)
    ensures UseField(env, r, rest, LOGINUID_SET, op, 0) == Ok((Add(r, Field(LOGINUID_SET, op, 0, [])), rest))
  {
  }

  lemma ParseGrows(env: Env, r: Rule, rest: Str, d: DataField, q: Rule, rest': Str)
    requires ParseField(env, r, rest, d) == Ok((q, rest'))
    ensures Later(r, q) && r.fields <= q.fields && |q.fields| == |r.fields| + 1 && q.fields[|r.fields|].op < BAD
    ensures IsLegacy(d) ==> q.legacy && q.fields[|r.fields|].typ == LOGINUID_SET && q.fields[|r.fields|].val == 0
    ensures q.legacy == (r.legacy || IsLegacy(d))
  {
    hide KindOf, UseField, FieldValid;
    var op := ToOp(d.flag);
    var t := if IsLegacy(d) then LOGINUID_SET else d.typ;
    var v := if IsLegacy(d) then 0 else d.value;
    var r' := r.(legacy := r.legacy || IsLegacy(d));
    FieldGrows(env, r', rest, t, op, v, q, rest');
    FieldLegacy(env, r', r'.legacy, rest, t, op, v);
    assert r'.(legacy := r'.legacy) == r';
    if IsLegacy(d) { LegacyField(env, r', rest, op); }
  }

  lemma LaterSelf(a: Rule)
    ensures Later(a, a)
  {
  }

  lemma LaterTrans(a: Rule, b: Rule, c: Rule)
    requires Later(a, b) && Later(b, c)
    ensures Later(a, c)
  {
  }

  lemma {:induction false} ParseAllGrows(env: Env, r: Rule, rest: Str, ds: seq<DataField>, q: Rule)
    requires ParseFields(env, r, rest, ds) == Ok(q)
    ensures Later(r, q) && r.fields <= q.fields && |q.fields| == |r.fields| + |ds|
    ensures forall i | |r.fields| <= i < |q.fields| :: q.fields[i].op < BAD
    decreases |ds|
  {
    hide ParseField, Later;
    if ds == [] {
      LaterSelf(r);
    } else {
      var p := ParseField(env, r, rest, ds[0]).value;
      ParseGrows(env, r, rest, ds[0], p.0, p.1);
      ParseAllGrows(env, p.0, p.1, ds[1..], q);
      LaterTrans(r, p.0, q);
    }
  }

  /** A rule with the legacy mark has a field that prints as the legacy test. */
  lemma {:induction false} LegacySource(env: Env, r: Rule, rest: Str, ds: seq<DataField>, q: Rule) returns (i: nat)
    requires ParseFields(env, r, rest, ds) == Ok(q) && q.legacy && !r.legacy
    ensures |r.fields| <= i < |q.fields| && PrintsLegacy(q, q.fields[i])
    decreases |ds|
  {
    var p := ParseField(env, r, rest, ds[0]).value;
    ParseGrows(env, r, rest, ds[0], p.0, p.1);
    ParseAllGrows(env, p.0, p.1, ds[1..], q);
    if IsLegacy(ds[0]) {
      i := |r.fields|;
    } else {
      hide ParseField;
      i := LegacySource(env, p.0, p.1, ds[1..], q);
    }
  }

  lemma StringAgain(env: Env, r: Rule, rest: Str, t: nat, op: nat, v: nat, q: Rule, rest': Str, end: Rule, x: bool, more: Str)
    requires UseField(env, r, rest, t, op, v) == Ok((q, rest')) && HasString(KindOf(t)) && Later(q, end) && NulFree(end)
    ensures |q.fields| == |r.fields| + 1
    ensures var f := q.fields[|r.fields|];
            UseField(env, r.(legacy := x), Packed(end, f) + more, t, op, |Packed(end, f)|) == Ok((q.(legacy := x), more))
  {
    var s := rest[..v];
    StringField(env, r, rest, t, op, v, q, rest');
    StringGrows(env, r, t, op, s, q);
    RawPacked(q, end, |r.fields|, s);
    StringLegacy(env, r, x, t, op, s);
    hide KindOf, UseString, Packed, Raw, Later, NulFree;
    assert (s + more)[..v] == s && (s + more)[v..] == more;
  }

  lemma NumberAgain(env: Env, r: Rule, rest: Str, t: nat, op: nat, v: nat, q: Rule, rest': Str, end: Rule, x: bool, more: Str)
    requires UseField(env, r, rest, t, op, v) == Ok((q, rest')) && !HasString(KindOf(t)) && Identity(env)
    ensures |q.fields| == |r.fields| + 1
    ensures var f := q.fields[|r.fields|];
            Packed(end, f) == [] && f.val == v && (KindOf(t) == Id ==> v != UNSET)
            && UseField(env, r.(legacy := x), more, t, op, v) == Ok((q.(legacy := x), more))
  {
    NumberField(env, r, rest, t, op, v, q, rest');
    hide KindOf, UseString, Unpack;
  }

  lemma OpAgain(op: nat)
    requires op < BAD
    ensures ToOp(OPS[op]) == op
  {
  }

  /** A field printed from the finished rule parses to the same field. */
  lemma ReparseField(env: Env, r: Rule, rest: Str, d: DataField, q: Rule, rest': Str, end: Rule, b: bool, more: Str)
    requires Identity(env) && ParseField(env, r, rest, d) == Ok((q, rest')) && Later(q, end) && NulFree(end)
    ensures |q.fields| == |r.fields| + 1 && q.fields[|r.fields|].op < BAD
    ensures var f := q.fields[|r.fields|];
            ParseField(env, r.(legacy := b), Packed(end, f) + more, PrintField(end, f))
            == Ok((q.(legacy := b || PrintsLegacy(end, f)), more))
  {
    ParseGrows(env, r, rest, d, q, rest');
    var op := ToOp(d.flag);
    var t := if IsLegacy(d) then LOGINUID_SET else d.typ;
    var v := if IsLegacy(d) then 0 else d.value;
    var r' := r.(legacy := r.legacy || IsLegacy(d));
    FieldGrows(env, r', rest, t, op, v, q, rest');
    var f := q.fields[|r.fields|];
    var x := b || PrintsLegacy(end, f);
    assert r'.(legacy := x) == r.(legacy := x);
    if HasString(KindOf(t)) {
      StringAgain(env, r', rest, t, op, v, q, rest', end, x, more);
    } else {
      NumberAgain(env, r', rest, t, op, v, q, rest', end, x, more);
      assert [] + more == more;
    }
    OpAgain(op);
    var e := PrintField(end, f);
    assert IsLegacy(e) == PrintsLegacy(end, f);
    assert ToOp(e.flag) == op;
    hide UseField, Packed, Later, NulFree, FieldValid, ToOp;
  }

  ghost predicate AnyLegacy(r: Rule, n: nat) {
    exists i | n <= i < |r.fields| :: PrintsLegacy(r, r.fields[i])
  }

  lemma AnyLegacyStep(r: Rule, n: nat)
    requires n < |r.fields|
    ensures AnyLegacy(r, n) == (PrintsLegacy(r, r.fields[n]) || AnyLegacy(r, n + 1))
  {
  }

  /** All the remaining fields, printed from the finished rule and parsed again. */
  lemma {:induction false} Reparse(env: Env, r: Rule, rest: Str, ds: seq<DataField>, end: Rule, b: bool)
    requires Identity(env) && ParseFields(env, r, rest, ds) == Ok(end) && NulFree(end) && OpsKnown(end)
    ensures |r.fields| <= |end.fields|
    ensures var n := |r.fields|;
            ParseFields(env, r.(legacy := b), PackAll(end, n), PrintFields(end, n)) == Ok(end.(legacy := b || AnyLegacy(end, n)))
    decreases |ds|
  {
    var n := |r.fields|;
    if ds == [] {
      assert PrintFields(end, n) == [];
    } else {
      var p := ParseField(env, r, rest, ds[0]).value;
      var q := p.0;
      hide ParseField, NulFree, Packed, PrintField;
      ParseGrows(env, r, rest, ds[0], q, p.1);
      ParseAllGrows(env, q, p.1, ds[1..], end);
      var f := end.fields[n];
      assert q.fields[n] == f;
      var x := b || PrintsLegacy(end, f);
      ReparseField(env, r, rest, ds[0], q, p.1, end, b, PackAll(end, n + 1));
      Reparse(env, q, p.1, ds[1..], end, x);
      assert PrintFields(end, n)[0] == PrintField(end, f) && PrintFields(end, n)[1..] == PrintFields(end, n + 1);
      AnyLegacyStep(end, n);
    }
  }

  // The syscall mask.

  /** Registered classes hold no class bits of their own. */
  ghost predicate ClassesOk(classes: ClassTable) {
    forall i, n | 0 <= i < |classes| && classes[i].Some? && n in classes[i].value :: n < BITS - CLASSES
  }

  /** After step i no class bit handled so far is left, and bits of the mask proper are never taken away. */
  lemma {:induction false} ExpandClears(classes: ClassTable, mask: set<nat>, i: nat)
    requires ClassesOk(classes) && i <= CLASSES
    requires forall n | n in mask :: n < BITS - i
    ensures forall n | n in Expand(classes, mask, i) :: n < 2032
    decreases CLASSES - i
  {
    if i < CLASSES {
      var bit := BITS - i - 1;
      var next := if bit !in mask then mask
                  else mask - {bit} + (if i < |classes| && classes[i].Some? then classes[i].value else {});
      ExpandClears(classes, next, i + 1);
    }
  }

  /** So a mask that has been expanded once is left alone. */
  lemma {:induction false} ExpandFixed(classes: ClassTable, mask: set<nat>, i: nat)
    requires forall n | n in mask :: n < BITS - CLASSES
    ensures Expand(classes, mask, i) == mask
    decreases CLASSES - i
  {
    if i < CLASSES { ExpandFixed(classes, mask, i + 1); }
  }

  /** Bits that name syscalls or registered classes; exactly the classes named in the mask were added. */
  lemma {:induction false} ExpandMeaning(classes: ClassTable, mask: set<nat>, i: nat, n: nat)
    requires ClassesOk(classes) && n < 2032 && i <= 16
    ensures n in Expand(classes, mask, i)
       <==> n in mask || exists k | i <= k < 16 && k < |classes| :: 2047 - k in mask && classes[k].Some? && n in classes[k].value
    decreases CLASSES - i
  {
    if i < CLASSES {
      var bit := BITS - i - 1;
      var next := if bit !in mask then mask
                  else mask - {bit} + (if i < |classes| && classes[i].Some? then classes[i].value else {});
      ExpandMeaning(classes, next, i + 1, n);
      assert forall m: nat | BITS - CLASSES <= m < bit :: m in next <==> m in mask;
    }
  }

  // The whole rule.

  lemma PrintedLength(r: Rule, i: nat)
    requires OpsKnown(r) && i <= |r.fields|
    ensures |PrintFields(r, i)| == |r.fields| - i
    decreases |r.fields| - i
  {
    if i < |r.fields| { PrintedLength(r, i + 1); }
  }

  lemma SamePrintField(a: Rule, b: Rule, f: Field)
    requires f.op < BAD && b == a.(inode := b.inode)
    ensures PrintField(a, f) == PrintField(b, f) && Packed(a, f) == Packed(b, f)
  {
    hide KindOf, CStr;
  }

  lemma {:induction false} SamePrint(a: Rule, b: Rule, i: nat)
    requires OpsKnown(a) && b == a.(inode := b.inode) && i <= |a.fields|
    ensures PrintFields(a, i) == PrintFields(b, i) && PackAll(a, i) == PackAll(b, i)
    decreases |a.fields| - i
  {
    if i < |a.fields| {
      SamePrint(a, b, i + 1);
      SamePrintField(a, b, a.fields[i]);
      hide PrintField, Packed;
    }
  }

  lemma CommonAgain(classes: ClassTable, data: Data, r: Rule, start: Rule)
    requires ClassesOk(classes) && (forall n | n in data.mask :: n < BITS)
    requires Common(classes, data) == Ok(start) && OpsKnown(r)
    requires r.prepend == start.prepend && r.listnr == start.listnr && r.action == start.action && r.mask == start.mask
    ensures Common(classes, Print(r)) == Ok(start)
  {
    hide PrintFields, PackAll;
    ExpandClears(classes, data.mask, 0);
    ExpandFixed(classes, r.mask, 0);
  }

  /**
   For every accepted rule with NUL-free strings under identity id maps: printing the kernel rule
   gives data that is accepted and parses to that very rule.
   */
  lemma RoundTrip(env: Env, classes: ClassTable, data: Data, r: Rule)
    requires Identity(env) && ClassesOk(classes) && Shaped(data) && (forall n | n in data.mask :: n < BITS)
    requires Parse(env, classes, data) == Ok(r) && NulFree(r)
    ensures OpsKnown(r) && Shaped(Print(r)) && Parse(env, classes, Print(r)) == Ok(r)
  {
    var start := Common(classes, data).value;
    var ds := data.fields[..data.fieldCount];
    var end := ParseFields(env, start, data.buf, ds).value;
    ParseAllGrows(env, start, data.buf, ds, end);
    assert r == end || r == end.(inode := None);
    assert OpsKnown(r) && NulFree(end);
    PrintedLength(r, 0);
    SamePrint(end, r, 0);
    var again := Print(r);
    assert again.fields[..again.fieldCount] == PrintFields(end, 0);
    CommonAgain(classes, data, r, start);
    Reparse(env, start, data.buf, ds, end, false);
    if end.legacy {
      var i := LegacySource(env, start, data.buf, ds, end);
    }
    assert start.(legacy := false) == start && end.(legacy := AnyLegacy(end, 0)) == end;
  }
}
