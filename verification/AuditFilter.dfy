/** The loops of kernel/auditfilter.c: class registration, both translations and the comparison of rules. */
module AuditFilter {
  import opened Wrappers
  import opened AuditRule
  import opened AuditRuleLaws
  import opened AuditRuleAccept

  /** The global table of syscall classes. */
  class SyscallClasses {
    var classes: ClassTable

    ghost predicate Valid()
      reads this
    {
      |classes| == CLASSES && ClassesOk(classes)
    }

    constructor ()
      ensures Valid() && forall i | 0 <= i < CLASSES :: classes[i] == None
    {
      classes := seq(CLASSES, _ => None);
    }

    /** audit_register_class: all or nothing, and never a class bit among the members. */
    method Register(class_: nat, list: seq<nat>) returns (err: int)
      requires Valid() && UNSET in list
      modifies this
      ensures Valid()
      ensures if (forall n | n in Members(list) :: n < BITS - CLASSES) && class_ < CLASSES && old(classes)[class_].None?
              then err == 0 && classes == old(classes)[class_ := Some(Members(list))]
              else err == -EINVAL && classes == old(classes)
    {
      var p: set<nat> := {};
      var i := 0;
      while list[i] != UNSET
        invariant 0 <= i < |list| && UNSET !in list[..i] && classes == old(classes)
        invariant p == (set n | n in list[..i]) && forall n | n in list[..i] :: n < BITS - CLASSES
        decreases |list| - i
      {
        var n := list[i];
        BeforeMore(list, i);
        if n >= BITS - CLASSES {
          assert n in Members(list);
          return -EINVAL;
        }
        assert list[..i + 1] == list[..i] + [n];
        p := p + {n};
        i := i + 1;
      }
      BeforeEnds(list, i);
      if class_ >= CLASSES || classes[class_].Some? {
        return -EINVAL;
      }
      assert p == Members(list) && ClassesOk(classes[class_ := Some(p)]);
      classes := classes[class_ := Some(p)];
      return 0;
    }
  }

  /** The list up to its end mark. */
  function Before(list: seq<nat>): seq<nat> {
    if list == [] || list[0] == UNSET then [] else [list[0]] + Before(list[1..])
  }

  function Members(list: seq<nat>): set<nat> {
    set n | n in Before(list)
  }

  lemma {:induction false} BeforeEnds(list: seq<nat>, i: nat)
    requires i < |list| && UNSET !in list[..i] && list[i] == UNSET
    ensures Before(list) == list[..i]
  {
    if i > 0 {
      assert list[0] in list[..i] && list[1..][..i - 1] == list[1..i];
      assert forall n | n in list[1..i] :: n in list[..i];
      BeforeEnds(list[1..], i - 1);
      assert list[..i] == [list[0]] + list[1..i];
    }
  }

  lemma {:induction false} BeforeMore(list: seq<nat>, i: nat)
    requires i < |list| && UNSET !in list[..i] && list[i] != UNSET
    ensures list[i] in Before(list)
    ensures i + 1 < |list| || UNSET !in list
  {
    if i > 0 {
      assert list[0] in list[..i] && list[1..][..i - 1] == list[1..i];
      assert forall n | n in list[1..i] :: n in list[..i];
      BeforeMore(list[1..], i - 1);
    }
  }

  /** audit_to_op. */
  method AuditToOp(op: nat) returns (n: nat)
    ensures n == ToOp(op)
  {
    n := 0;
    while n < BAD && OPS[n] != op
      invariant n <= BAD && forall k | 0 <= k < n :: OPS[k] != op
    {
      n := n + 1;
    }
  }

  /** audit_to_entry_common, with its loop over the class bits. */
  method ToEntryCommon(classes: ClassTable, data: Data) returns (entry: Result<Rule>)
    ensures entry == Common(classes, data)
  {
    var listnr := Listnr(data.flags);
    if listnr !in {USER, TASK, EXIT, EXCLUDE, FS, URING_EXIT} {
      return Err(-EINVAL);
    }
    if data.action != NEVER && data.action != ALWAYS {
      return Err(-EINVAL);
    }
    if data.fieldCount > MAX_FIELDS {
      return Err(-EINVAL);
    }
    var mask := data.mask;
    var i := 0;
    while i < CLASSES
      invariant 0 <= i <= CLASSES && Expand(classes, data.mask, 0) == Expand(classes, mask, i)
    {
      var bit := BITS - i - 1;
      if bit in mask {
        mask := mask - {bit};
        assert mask + {} == mask;
        if i < |classes| && classes[i].Some? {
          mask := mask + classes[i].value;
        }
      }
      i := i + 1;
    }
    return Ok(Rule(false, data.flags / PREPEND % 2 == 1, listnr, data.action, mask, 0, [], None, None, None, None, None, None));
  }

  lemma CountOk(classes: ClassTable, data: Data)
    requires Common(classes, data).Ok?
    ensures data.fieldCount <= MAX_FIELDS && !Common(classes, data).value.legacy
  {
  }

  /** audit_data_to_entry. */
  method DataToEntry(env: Env, classes: ClassTable, data: Data) returns (entry: Result<Rule>, ghost stages: seq<(Rule, Str)>)
    requires Shaped(data)
    ensures entry == Parse(env, classes, data) && Answered(env, classes, data, entry, stages)
  {
    hide UseField, FieldValid, ToOp, Common, Answered;
    stages := RuleVerdict(env, classes, data);
    entry := ToEntryCommon(classes, data);
    if entry.Err? {
      return;
    }
    ghost var start := entry.value;
    var r, rest := entry.value, data.buf;
    CountOk(classes, data);
    ghost var ds := data.fields[..data.fieldCount];
    var i := 0;
    while i < data.fieldCount
      invariant i <= data.fieldCount
      invariant ParseFields(env, start, data.buf, ds) == ParseFields(env, r, rest, ds[i..])
    {
      var d := data.fields[i];
      assert ds[i..][0] == d && ds[i..][1..] == ds[i + 1..];
      var op := AuditToOp(d.flag);
      if op == BAD {
        return Err(-EINVAL), stages;
      }
      var t, v := d.typ, d.value;
      if t == LOGINUID && v == UNSET {
        t, v := LOGINUID_SET, 0;
        r := r.(legacy := true);
      }
      if !FieldValid(r.listnr, t, op, 0) {
        return Err(-EINVAL), stages;
      }
      var q := UseField(env, r, rest, t, op, v);
      if q.Err? {
        return Err(q.error), stages;
      }
      r, rest := q.value.0, q.value.1;
      i := i + 1;
    }
    if r.inode.Some? && r.inode.value < |r.fields| && r.fields[r.inode.value].op == NOT_EQUAL {
      r := r.(inode := None);
    }
    return Ok(r), stages;
  }

  /** audit_krule_to_data: fills the arrays and moves along the buffer. */
  method KruleToData(r: Rule) returns (data: Data)
    requires OpsKnown(r)
    ensures data == Print(r)
  {
    hide PrintField, Packed;
    var fields: seq<DataField> := [];
    var buf: Str := [];
    var i := 0;
    while i < |r.fields|
      invariant i <= |r.fields| && |fields| == i
      invariant fields + PrintFields(r, i) == PrintFields(r, 0) && buf + PackAll(r, i) == PackAll(r, 0)
    {
      var f := r.fields[i];
      var d, s := PrintField(r, f), Packed(r, f);
      assert fields + ([d] + PrintFields(r, i + 1)) == (fields + [d]) + PrintFields(r, i + 1);
      assert buf + (s + PackAll(r, i + 1)) == (buf + s) + PackAll(r, i + 1);
      fields, buf := fields + [d], buf + s;
      i := i + 1;
    }
    assert fields == PrintFields(r, 0) && buf == PackAll(r, 0);
    data := Data((if r.prepend then PREPEND else 0) + r.listnr, r.action, |r.fields|, r.mask,
                 fields + seq(MAX_FIELDS - |fields|, _ => DataField(0, 0, 0)), buf);
  }

  /** Field i of two rules says the same. */
  predicate SameField(a: Rule, b: Rule, i: nat)
    requires i < |a.fields| && i < |b.fields|
  {
    var f, g := a.fields[i], b.fields[i];
    && f.typ == g.typ && f.op == g.op
    && if HasString(KindOf(f.typ)) then Packed(a, f) == Packed(b, g) else f.val == g.val
  }

  predicate SameRule(a: Rule, b: Rule) {
    && a.prepend == b.prepend && a.legacy == b.legacy && a.listnr == b.listnr && a.action == b.action
    && |a.fields| == |b.fields| && a.mask == b.mask
    && forall i | 0 <= i < |a.fields| :: SameField(a, b, i)
  }

  /** audit_compare_rule. */
  method CompareRule(a: Rule, b: Rule) returns (differ: bool)
    ensures differ <==> !SameRule(a, b)
  {
    hide KindOf, Packed;
    if a.prepend != b.prepend || a.legacy != b.legacy || a.listnr != b.listnr || a.action != b.action || |a.fields| != |b.fields| {
      return true;
    }
    var i := 0;
    while i < |a.fields|
      invariant i <= |a.fields| && forall k | 0 <= k < i :: SameField(a, b, k)
    {
      var f, g := a.fields[i], b.fields[i];
      if f.typ != g.typ || f.op != g.op {
        assert !SameField(a, b, i);
        return true;
      }
      if HasString(KindOf(f.typ)) {
        if Packed(a, f) != Packed(b, g) {
          assert !SameField(a, b, i);
          return true;
        }
      } else if f.val != g.val {
        assert !SameField(a, b, i);
        return true;
      }
      i := i + 1;
    }
    return a.mask != b.mask;
  }

  lemma SameFieldPrinted(a: Rule, b: Rule, i: nat)
    requires i < |a.fields| && i < |b.fields| && SameField(a, b, i) && a.legacy == b.legacy && a.fields[i].op < BAD
    ensures PrintField(a, a.fields[i]) == PrintField(b, b.fields[i]) && Packed(a, a.fields[i]) == Packed(b, b.fields[i])
  {
    hide KindOf;
  }

  lemma {:induction false} SamePrinted(a: Rule, b: Rule, i: nat)
    requires SameRule(a, b) && OpsKnown(a) && OpsKnown(b) && i <= |a.fields|
    ensures PrintFields(a, i) == PrintFields(b, i) && PackAll(a, i) == PackAll(b, i)
    decreases |a.fields| - i
  {
    hide SameField, PrintField, Packed;
    if i < |a.fields| {
      SameFieldPrinted(a, b, i);
      SamePrinted(a, b, i + 1);
    }
  }

  lemma SameAsItself(a: Rule)
    ensures SameRule(a, a)
  {
  }

  lemma SamePrint(a: Rule, b: Rule)
    requires SameRule(a, b) && OpsKnown(a) && OpsKnown(b)
    ensures Print(a) == Print(b)
  {
    SamePrinted(a, b, 0);
    hide PrintFields, PackAll, SameField;
  }

  /**
   audit_compare_rule finds no difference exactly between a rule and itself: two accepted rules with
   NUL-free strings that it calls equal print the same, and what they print parses to both.
   */
  lemma CompareExact(env: Env, classes: ClassTable, x: Data, y: Data, a: Rule, b: Rule)
    requires Identity(env) && ClassesOk(classes) && Shaped(x) && Shaped(y)
    requires (forall n | n in x.mask :: n < BITS) && (forall n | n in y.mask :: n < BITS)
    requires Parse(env, classes, x) == Ok(a) && NulFree(a) && Parse(env, classes, y) == Ok(b) && NulFree(b)
    ensures SameRule(a, b) <==> a == b
  {
    hide Parse, Print, NulFree, SameField;
    RoundTrip(env, classes, x, a);
    RoundTrip(env, classes, y, b);
    if SameRule(a, b) { SamePrint(a, b); }
    SameAsItself(a);
  }
}
