/**
 Which rules audit_data_to_entry of kernel/auditfilter.c accepts, what it answers to the others, and what it stores: told by
 tables of the numbers that user space sends.
 */
module AuditRuleAccept {
  import opened Wrappers
  import opened AuditRule
  import opened AuditRuleLaws

  /** The operators a field type takes: all of them, all but the two on bits, or (un)equal only. */
  datatype Ops = All | NoBits | Equality

  /** The field types there are. */
  function OpsOf(t: nat): Option<Ops> {
    match t
    case 0 => Some(NoBits)  // pid
    case 1 | 2 | 3 | 4 => Some(NoBits)  // uid, euid, suid, fsuid
    case 5 | 6 | 7 | 8 => Some(NoBits)  // gid, egid, sgid, fsgid
    case 9 => Some(NoBits)  // loginuid
    case 10 => Some(All)  // pers
    case 11 => Some(Equality)  // arch
    case 12 => Some(NoBits)  // msgtype
    case 13 | 14 | 15 => Some(Equality)  // subj_user, subj_role, subj_type
    case 16 | 17 => Some(NoBits)  // subj_sen, subj_clr
    case 18 => Some(NoBits)  // ppid
    case 19 | 20 | 21 => Some(Equality)  // obj_user, obj_role, obj_type
    case 22 | 23 => Some(NoBits)  // obj_lev_low, obj_lev_high
    case 24 => Some(Equality)  // loginuid_set
    case 25 => Some(NoBits)  // sessionid
    case 26 => Some(Equality)  // fstype
    case 100 => Some(NoBits)  // devmajor
    case 101 => Some(All)  // devminor
    case 102 | 103 | 104 => Some(NoBits)  // inode, exit, success
    case 105 | 106 | 107 | 108 => Some(Equality)  // watch, perm, dir, filetype
    case 109 | 110 => Some(NoBits)  // obj_uid, obj_gid
    case 111 | 112 => Some(Equality)  // field_compare, exe
    case 113 => Some(NoBits)  // saddr_fam
    case 200 | 201 | 202 | 203 => Some(All)  // arg0, arg1, arg2, arg3
    case 210 => Some(Equality)  // key
    case _ => None
  }

  /** "=", "!=", "&", "&=", "<", ">", "<=", ">=" as they are sent. */
  const OPERATORS: set<nat> :=
    {0x4000_0000, 0x3000_0000, 0x0800_0000, 0x4800_0000, 0x1000_0000, 0x2000_0000, 0x5000_0000, 0x6000_0000}

  /** audit_field_valid: field type and operator, and the lists that go with some types. */
  predicate Allowed(listnr: nat, t: nat, flag: nat) {
    && flag in OPERATORS && OpsOf(t).Some?
    && (OpsOf(t) == Some(NoBits) ==> flag != 0x0800_0000 && flag != 0x4800_0000)
    && (OpsOf(t) == Some(Equality) ==> flag == 0x4000_0000 || flag == 0x3000_0000)
    && (t == 12 ==> listnr == 5 || listnr == 0)
    && (t == 26 ==> listnr == 6)
    && (t == 106 ==> listnr != 7)
    && (listnr == 6 ==> t == 26 || t == 210)
  }

  lemma OperatorNumber(flag: nat)
    ensures flag in OPERATORS <==> ToOp(flag) < 8
    ensures (ToOp(flag) == 0 <==> flag == 0x4000_0000) && (ToOp(flag) == 1 <==> flag == 0x3000_0000)
    ensures (ToOp(flag) == 2 <==> flag == 0x0800_0000) && (ToOp(flag) == 3 <==> flag == 0x4800_0000)
  {
  }

  lemma TypeOps(t: nat)
    ensures AnyOp(t) <==> OpsOf(t) == Some(All)
    ensures NoBitOp(t) <==> OpsOf(t) == Some(NoBits)
    ensures EqualOp(t) <==> OpsOf(t) == Some(Equality)
  {
  }

  lemma AllowedIs(listnr: nat, t: nat, flag: nat)
    ensures Allowed(listnr, t, flag) <==> ToOp(flag) != BAD && FieldValid(listnr, t, ToOp(flag), 0)
  {
    hide ToOp, AnyOp, NoBitOp, EqualOp, OpsOf;
    OperatorNumber(flag);
    TypeOps(t);
    assert OpsOf(t).Some? ==> OpsOf(t).value.All? || OpsOf(t).value.NoBits? || OpsOf(t).value.Equality?;
  }

  predicate ByUser(t: nat) {
    t in {1, 2, 3, 4, 9, 109}
  }

  predicate ByGroup(t: nat) {
    t in {5, 6, 7, 8, 110}
  }

  predicate ByLsm(t: nat) {
    t in {13, 14, 15, 16, 17, 19, 20, 21, 22, 23}
  }

  predicate ByString(t: nat) {
    ByLsm(t) || t == 105 || t == 107 || t == 112 || t == 210
  }

  /** The rule may still be tied to a file: it is on one of the exit lists, and names no inode, watch or directory yet. */
  predicate FileFree(r: Rule) {
    (r.listnr == 4 || r.listnr == 7) && r.inode == None && r.watch == None && r.tree == None
  }

  /** An absolute path, and not one of a directory. */
  predicate FilePath(s: Str)
    requires s != []
  {
    s[0] == 47 && s[|s| - 1] != 47
  }

  /** What a string that was unpacked is answered with: 0 or an error. */
  function StringVerdict(env: Env, r: Rule, t: nat, flag: nat, s: Str): int
    requires s != []
  {
    if ByLsm(t) then
      var e := env.lsm(t, ToOp(flag), CStr(s));
      if e == -22 then 0 else e
    else if t == 105 then
      if !env.watches then -95 else if FilePath(s) && flag == 0x4000_0000 && FileFree(r) then 0 else -22
    else if t == 107 then if s[0] == 47 && flag == 0x4000_0000 && FileFree(r) then 0 else -22
    else if t == 112 then if FilePath(s) then env.markExe(CStr(s)) else -22
    else 0
  }

  /** What a field is answered with, by its type. */
  function TypeVerdict(env: Env, r: Rule, rest: Str, t: nat, flag: nat, v: nat): int {
    if ByUser(t) then if env.toKuid(v) == 0xffff_ffff then -22 else 0
    else if ByGroup(t) then if env.toKgid(v) == 0xffff_ffff then -22 else 0
    else if t == 102 then if FileFree(r) && (flag == 0x4000_0000 || flag == 0x3000_0000) then 0 else -22
    else if ByString(t) then
      if (t == 210 && (r.key.Some? || v > 256)) || (t == 112 && (r.exe.Some? || v > 4096)) then -22
      else if v == 0 || v > |rest| then -22
      else if v > 4096 then -36
      else StringVerdict(env, r, t, flag, rest[..v])
    else 0
  }

  /** A test for an unset login uid counts as one of type 24 with the value 0. */
  function Meant(d: DataField): DataField {
    if d.typ == 9 && d.value == 0xffff_ffff then DataField(24, d.flag, 0) else d
  }

  /** What a field is answered with: 0 if it is accepted. */
  function Verdict(env: Env, r: Rule, rest: Str, d: DataField): int {
    var m := Meant(d);
    if !Allowed(r.listnr, m.typ, m.flag) then -22 else TypeVerdict(env, r, rest, m.typ, m.flag, m.value)
  }

  /** What is stored for an accepted field: the rule behind it, and the strings that are left. */
  function Stored(env: Env, r: Rule, rest: Str, d: DataField): (Rule, Str)
    requires ByString(Meant(d).typ) ==> Meant(d).value <= |rest|
  {
    var t, op, v := Meant(d).typ, ToOp(d.flag), Meant(d).value;
    var q := if Meant(d) != d then r.(legacy := true) else r;
    var s := if ByString(t) then rest[..v] else [];
    var val := if ByUser(t) then env.toKuid(v) else if ByGroup(t) then env.toKgid(v) else if ByString(t) then 0 else v;
    var n := |r.fields|;
    (q.(fields := r.fields + [Field(t, op, val, if ByLsm(t) then s else [])],
        buflen := r.buflen + |s|,
        arch := if t == 11 then Some(n) else r.arch,
        inode := if t == 102 then Some(n) else r.inode,
        watch := if t == 105 then Some(s) else r.watch,
        tree := if t == 107 then Some(s) else r.tree,
        exe := if t == 112 then Some(s) else r.exe,
        key := if t == 210 then Some(s) else r.key),
     if ByString(t) then rest[v..] else rest)
  }

  lemma KindIs(t: nat)
    ensures KindOf(t) == if ByUser(t) || ByGroup(t) then Id else if t == 11 then Arch else if ByLsm(t) then Lsm
                         else if t == 105 then Watch else if t == 107 then Dir else if t == 102 then Inode
                         else if t == 210 then Key else if t == 112 then Exe else Plain
    ensures KindOf(t) == Id ==> (t in {5, 6, 7, 8, 110} <==> ByGroup(t)) && (ByUser(t) <==> !ByGroup(t))
  {
  }

  lemma StringIs(env: Env, r: Rule, t: nat, flag: nat, s: Str)
    requires s != [] && ByString(t)
    ensures var q, e := UseString(env, r, t, ToOp(flag), s), StringVerdict(env, r, t, flag, s);
            && (q.Ok? <==> e == 0) && (q.Err? ==> q.error == e)
            && (q.Ok? ==> q.value == r.(fields := r.fields + [Field(t, ToOp(flag), 0, if ByLsm(t) then s else [])],
                                        buflen := r.buflen + |s|,
                                        watch := if t == 105 then Some(s) else r.watch,
                                        tree := if t == 107 then Some(s) else r.tree,
                                        exe := if t == 112 then Some(s) else r.exe,
                                        key := if t == 210 then Some(s) else r.key))
  {
    KindIs(t);
    OperatorNumber(flag);
    hide KindOf, CStr, ToOp;
  }

  lemma FieldIs(env: Env, r: Rule, rest: Str, t: nat, flag: nat, v: nat)
    ensures var q, e := UseField(env, r, rest, t, ToOp(flag), v), TypeVerdict(env, r, rest, t, flag, v);
            (q.Ok? <==> e == 0) && (q.Err? ==> q.error == e)
  {
    KindIs(t);
    OperatorNumber(flag);
    if ByString(t) && 0 < v <= |rest| { StringIs(env, r, t, flag, rest[..v]); }
    hide KindOf, CStr, ToOp, UseString, StringVerdict;
  }

  lemma FieldStored(env: Env, r: Rule, rest: Str, t: nat, flag: nat, v: nat)
    requires UseField(env, r, rest, t, ToOp(flag), v).Ok? && !(t == 9 && v == 0xffff_ffff)
    ensures ByString(t) ==> v <= |rest|
    ensures UseField(env, r, rest, t, ToOp(flag), v).value == Stored(env, r, rest, DataField(t, flag, v))
  {
    KindIs(t);
    if ByString(t) && 0 < v <= |rest| { StringIs(env, r, t, flag, rest[..v]); }
    hide KindOf, CStr, ToOp, UseString, StringVerdict;
  }

  /** One field: accepted exactly if the verdict is 0, answered with it otherwise, and stored as the tables say. */
  lemma FieldVerdict(env: Env, r: Rule, rest: Str, d: DataField)
    ensures var q, e := ParseField(env, r, rest, d), Verdict(env, r, rest, d);
            && (q.Ok? <==> e == 0) && (q.Err? ==> q.error == e)
            && (q.Ok? ==> (ByString(Meant(d).typ) ==> Meant(d).value <= |rest|) && q.value == Stored(env, r, rest, d))
  {
    var m := Meant(d);
    var r' := r.(legacy := r.legacy || IsLegacy(d));
    AllowedIs(r.listnr, m.typ, d.flag);
    FieldIs(env, r', rest, m.typ, d.flag, m.value);
    hide Allowed, FieldValid, ToOp, UseField;
    assert TypeVerdict(env, r', rest, m.typ, d.flag, m.value) == TypeVerdict(env, r, rest, m.typ, d.flag, m.value) by {
      SameVerdict(env, r, r'.legacy, rest, m.typ, d.flag, m.value);
    }
    if Verdict(env, r, rest, d) == 0 { FieldStored(env, r', rest, m.typ, d.flag, m.value); }
  }

  lemma SameVerdict(env: Env, r: Rule, legacy: bool, rest: Str, t: nat, flag: nat, v: nat)
    ensures TypeVerdict(env, r.(legacy := legacy), rest, t, flag, v) == TypeVerdict(env, r, rest, t, flag, v)
  {
    hide CStr, ToOp;
  }

  /** The rule and the strings left after each field that was accepted. */
  ghost predicate Stages(env: Env, ds: seq<DataField>, stages: seq<(Rule, Str)>) {
    && 0 < |stages| <= |ds| + 1
    && forall i | 0 <= i < |stages| - 1 ::
         && Verdict(env, stages[i].0, stages[i].1, ds[i]) == 0
         && (ByString(Meant(ds[i]).typ) ==> Meant(ds[i]).value <= |stages[i].1|)
         && stages[i + 1] == Stored(env, stages[i].0, stages[i].1, ds[i])
  }

  /** Any number of fields: all are stored in turn, or the first that is not accepted gives the answer. */
  lemma {:induction false} FieldsVerdict(env: Env, r: Rule, rest: Str, ds: seq<DataField>) returns (stages: seq<(Rule, Str)>)
    ensures Stages(env, ds, stages) && stages[0] == (r, rest)
    ensures var last := stages[|stages| - 1];
            if |stages| == |ds| + 1 then ParseFields(env, r, rest, ds) == Ok(last.0)
            else var e := Verdict(env, last.0, last.1, ds[|stages| - 1]); e != 0 && ParseFields(env, r, rest, ds) == Err(e)
    decreases |ds|
  {
    hide Verdict, Stored, ParseField;
    stages := [(r, rest)];
    if ds != [] {
      FieldVerdict(env, r, rest, ds[0]);
      if Verdict(env, r, rest, ds[0]) == 0 {
        var next := Stored(env, r, rest, ds[0]);
        var more := FieldsVerdict(env, next.0, next.1, ds[1..]);
        stages := [(r, rest)] + more;
        forall i | 0 <= i < |stages| - 1
          ensures && Verdict(env, stages[i].0, stages[i].1, ds[i]) == 0
                  && (ByString(Meant(ds[i]).typ) ==> Meant(ds[i]).value <= |stages[i].1|)
                  && stages[i + 1] == Stored(env, stages[i].0, stages[i].1, ds[i])
        {
          if i > 0 { assert ds[i] == ds[1..][i - 1] && stages[i] == more[i - 1] && stages[i + 1] == more[i]; }
        }
      }
    }
  }

  /** The lists user, task, exit, exclude, fs and uring exit, each with or without the bit that puts the rule first; the
      actions never and always; at most 64 fields. */
  predicate HeaderOk(data: Data) {
    && data.flags in {0, 1, 4, 5, 6, 7, 16, 17, 20, 21, 22, 23} && data.action in {0, 2} && data.fieldCount <= 64
  }

  lemma HeaderIs(classes: ClassTable, data: Data)
    ensures Common(classes, data)
         == if !HeaderOk(data) then Err(-22)
            else Ok(Rule(false, data.flags >= 16, data.flags % 16, data.action, Expand(classes, data.mask, 0), 0, [],
                         None, None, None, None, None, None))
  {
    hide Expand;
  }

  /** The inode test is dropped from a finished rule if it asks for another inode. */
  function Finished(r: Rule): Rule {
    if r.inode.Some? && r.inode.value < |r.fields| && r.fields[r.inode.value].op == 1 then r.(inode := None) else r
  }

  /**
   audit_data_to_entry: a rule is refused with -EINVAL for its header, or with the answer to its first field that is not
   accepted, or it is stored field by field.
   */
  ghost predicate Answered(env: Env, classes: ClassTable, data: Data, entry: Result<Rule>, stages: seq<(Rule, Str)>)
    requires Shaped(data)
  {
    if !HeaderOk(data) then entry == Err(-22)
    else
      var ds := data.fields[..data.fieldCount];
      && Stages(env, ds, stages)
      && stages[0] == (Rule(false, data.flags >= 16, data.flags % 16, data.action, Expand(classes, data.mask, 0), 0, [],
                            None, None, None, None, None, None), data.buf)
      && var last := stages[|stages| - 1];
         if |stages| == data.fieldCount + 1 then entry == Ok(Finished(last.0))
         else var e := Verdict(env, last.0, last.1, ds[|stages| - 1]); e != 0 && entry == Err(e)
  }

  lemma RuleVerdict(env: Env, classes: ClassTable, data: Data) returns (stages: seq<(Rule, Str)>)
    requires Shaped(data)
    ensures Answered(env, classes, data, Parse(env, classes, data), stages)
  {
    hide Expand, ParseFields, Verdict, Stages;
    HeaderIs(classes, data);
    stages := [];
    if HeaderOk(data) {
      stages := FieldsVerdict(env, Common(classes, data).value, data.buf, data.fields[..data.fieldCount]);
      assert Stages(env, data.fields[..data.fieldCount], stages);
    }
  }

  /** A rule with one field that needs no string, no id and no file: accepted exactly if the tables allow it. */
  lemma OneField(env: Env, classes: ClassTable, data: Data)
    requires Shaped(data) && data.fieldCount == 1
    requires var t := Meant(data.fields[0]).typ; !ByUser(t) && !ByGroup(t) && !ByString(t) && t != 102
    ensures var d := Meant(data.fields[0]);
            && (Parse(env, classes, data).Ok? <==> HeaderOk(data) && Allowed(data.flags % 16, d.typ, d.flag))
            && (Parse(env, classes, data).Err? ==> Parse(env, classes, data).error == -22)
  {
    hide Expand, Allowed, ParseFields, Stored;
    var stages := RuleVerdict(env, classes, data);
    if HeaderOk(data) { assert data.fields[..1][0] == data.fields[0]; }
  }
}
