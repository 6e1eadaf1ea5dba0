/**
 Audit rules as user space sends them and as kernel/auditfilter.c keeps them, and the two
 translations between these forms.
 */
module AuditRule {
  import opened Wrappers

  /** Bytes of a C string, without the terminator the kernel adds. */
  type Str = seq<nat>

  const EINVAL := 22
  const ENAMETOOLONG := 36
  const EOPNOTSUPP := 95

  const MAX_FIELDS := 64
  const MAX_KEY_LEN := 256
  const PATH_MAX := 4096
  const UNSET := 0xffff_ffff
  const CLASSES := 16
  const BITS := 2048      // AUDIT_BITMASK_SIZE words of 32 bits
  const SLASH := 47

  // Lists and actions.
  const USER := 0
  const TASK := 1
  const EXIT := 4
  const EXCLUDE := 5
  const FS := 6
  const URING_EXIT := 7
  const PREPEND := 0x10
  const NEVER := 0
  const ALWAYS := 2

  // Field types that the code tells apart.
  const LOGINUID := 9
  const MSGTYPE := 12
  const LOGINUID_SET := 24
  const FSTYPE := 26
  const PERM := 106
  const FILETYPE := 108
  const FIELD_COMPARE := 111
  const SADDR_FAM := 113
  const FILTERKEY := 210

  // Operators, as numbered in the kernel.
  const EQUAL := 0
  const NOT_EQUAL := 1
  const BITMASK := 2
  const BITTEST := 3
  const BAD := 8

  /** audit_ops. */
  const OPS: seq<nat> :=
    [0x4000_0000, 0x3000_0000, 0x0800_0000, 0x4800_0000, 0x1000_0000, 0x2000_0000, 0x5000_0000, 0x6000_0000]

  /** How audit_data_to_entry treats a field type. */
  datatype Kind = Id | Arch | Lsm | Watch | Dir | Inode | Key | Exe | Plain

  function KindOf(t: nat): Kind {
    if t in {1, 2, 3, 4, 5, 6, 7, 8, LOGINUID, 109, 110} then Id
    else if t == 11 then Arch
    else if 13 <= t <= 17 || 19 <= t <= 23 then Lsm
    else if t == 105 then Watch
    else if t == 107 then Dir
    else if t == 102 then Inode
    else if t == FILTERKEY then Key
    else if t == 112 then Exe
    else Plain
  }

  /** One field of struct audit_rule_data, and the whole of it. */
  datatype DataField = DataField(typ: nat, flag: nat, value: nat)
  datatype Data = Data(flags: nat, action: nat, fieldCount: nat, mask: set<nat>, fields: seq<DataField>, buf: Str)

  /** struct audit_field, whose union holds a number or a string; struct audit_krule. */
  datatype Field = Field(typ: nat, op: nat, val: nat, str: Str)
  datatype Rule = Rule(
    legacy: bool, prepend: bool, listnr: nat, action: nat, mask: set<nat>, buflen: nat, fields: seq<Field>,
    key: Option<Str>, arch: Option<nat>, inode: Option<nat>, watch: Option<Str>, tree: Option<Str>, exe: Option<Str>)

  /** What lies outside: user-id maps, LSM rules, whether watches are supported, and path lookup for executables. */
  datatype Env = Env(toKuid: nat -> nat, toKgid: nat -> nat, lsm: (nat, nat, Str) -> int, watches: bool, markExe: Str -> int)

  ghost predicate Identity(env: Env) {
    (forall v :: env.toKuid(v) == v) && (forall v :: env.toKgid(v) == v)
  }

  type ClassTable = seq<Option<set<nat>>>

  function ToOp(flag: nat): (n: nat)
    ensures n <= BAD && (n < BAD ==> OPS[n] == flag) && (n == BAD ==> flag !in OPS)
  {
    if flag == OPS[0] then 0 else if flag == OPS[1] then 1 else if flag == OPS[2] then 2 else if flag == OPS[3] then 3
    else if flag == OPS[4] then 4 else if flag == OPS[5] then 5 else if flag == OPS[6] then 6 else if flag == OPS[7] then 7
    else BAD
  }

  function CStr(s: Str): (c: Str)
    ensures c <= s && 0 !in c && (0 !in s ==> c == s)
  {
    if s == [] || s[0] == 0 then [] else [s[0]] + CStr(s[1..])
  }

  /** The field types whose operator may be anything, anything but a bit operator, or only (un)equal. */
  predicate AnyOp(t: nat) {
    200 <= t <= 203 || t == 10 || t == 101
  }

  predicate NoBitOp(t: nat) {
    || t in {1, 2, 3, 4, LOGINUID, 109, 5, 6, 7, 8, 110, 0, MSGTYPE, 18, 100, 103, 104, 102, 25}
    || t in {16, 17, 22, 23, SADDR_FAM}
  }

  predicate EqualOp(t: nat) {
    || t in {13, 14, 15, 19, 20, 21, 105, 107, FILTERKEY, LOGINUID_SET, 11, FSTYPE}
    || t in {PERM, FILETYPE, FIELD_COMPARE, 112}
  }

  /** The five field types whose value audit_field_valid looks at. */
  predicate ValueOk(t: nat, val: nat) {
    && (t == LOGINUID_SET ==> val == 0 || val == 1)
    && (t == PERM ==> val <= 15)
    && (t == FILETYPE ==> val % 0x1000 == 0 && val < 0x10000)
    && (t == FIELD_COMPARE ==> val <= 25)
    && (t == SADDR_FAM ==> val < 46)
  }

  /** audit_field_valid for a field on a list. */
  predicate FieldValid(listnr: nat, t: nat, op: nat, val: nat) {
    && (t == MSGTYPE ==> listnr == EXCLUDE || listnr == USER)
    && (t == FSTYPE ==> listnr == FS)
    && (t == PERM ==> listnr != URING_EXIT)
    && (listnr == FS ==> t == FSTYPE || t == FILTERKEY)
    && (AnyOp(t) || (NoBitOp(t) && op != BITMASK && op != BITTEST) || (EqualOp(t) && (op == EQUAL || op == NOT_EQUAL)))
    && ValueOk(t, val)
  }

  predicate OnExit(r: Rule) {
    r.listnr == EXIT || r.listnr == URING_EXIT
  }

  predicate NoFile(r: Rule) {
    r.inode.None? && r.watch.None? && r.tree.None?
  }

  /** audit_unpack_string. */
  function Unpack(rest: Str, len: nat): (s: Result<Str>)
    ensures s.Ok? ==> 0 < len <= |rest| && len <= PATH_MAX && s.value == rest[..len]
  {
    if len == 0 || len > |rest| then Err(-EINVAL)
    else if len > PATH_MAX then Err(-ENAMETOOLONG)
    else Ok(rest[..len])
  }

  function Add(r: Rule, f: Field): Rule {
    r.(fields := r.fields + [f])
  }

  /** What a field with a string does with it once it is unpacked. */
  function UseString(env: Env, r: Rule, t: nat, op: nat, s: Str): Result<Rule>
    requires s != []
  {
    var q := r.(buflen := r.buflen + |s|);
    match KindOf(t)
    case Lsm =>
      var e := env.lsm(t, op, CStr(s));
      if e == 0 || e == -EINVAL then Ok(Add(q, Field(t, op, 0, s))) else Err(e)
    case Watch =>
      if !env.watches then Err(-EOPNOTSUPP)
      else if s[0] != SLASH || s[|s| - 1] == SLASH || !OnExit(r) || op != EQUAL || !NoFile(r) then Err(-EINVAL)
      else Ok(Add(q.(watch := Some(s)), Field(t, op, 0, [])))
    case Dir =>
      if s[0] != SLASH || !OnExit(r) || op != EQUAL || !NoFile(r) then Err(-EINVAL)
      else Ok(Add(q.(tree := Some(s)), Field(t, op, 0, [])))
    case Key => Ok(Add(q.(key := Some(s)), Field(t, op, 0, [])))
    case Exe =>
      if s[0] != SLASH || s[|s| - 1] == SLASH then Err(-EINVAL)
      else
        var e := env.markExe(CStr(s));
        if e != 0 then Err(e) else Ok(Add(q.(exe := Some(s)), Field(t, op, 0, [])))
    case _ => Ok(r)
  }

  predicate HasString(k: Kind) {
    k == Lsm || k == Watch || k == Dir || k == Key || k == Exe
  }

  /** The switch of audit_data_to_entry, for a field already checked. */
  function UseField(env: Env, r: Rule, rest: Str, t: nat, op: nat, v: nat): Result<(Rule, Str)> {
    match KindOf(t)
    case Id =>
      var id := if t in {5, 6, 7, 8, 110} then env.toKgid(v) else env.toKuid(v);
      if id == UNSET then Err(-EINVAL) else Ok((Add(r, Field(t, op, id, [])), rest))
    case Arch => Ok((Add(r.(arch := Some(|r.fields|)), Field(t, op, v, [])), rest))
    case Inode =>
      if !OnExit(r) || !NoFile(r) || (op != EQUAL && op != NOT_EQUAL) then Err(-EINVAL)
      else Ok((Add(r.(inode := Some(|r.fields|)), Field(t, op, v, [])), rest))
    case Plain => Ok((Add(r, Field(t, op, v, [])), rest))
    case k =>
      if (k == Key && (r.key.Some? || v > MAX_KEY_LEN)) || (k == Exe && (r.exe.Some? || v > PATH_MAX)) then Err(-EINVAL)
      else
        var s := Unpack(rest, v);
        if s.Err? then Err(s.error)
        else
          var q := UseString(env, r, t, op, s.value);
          if q.Err? then Err(q.error) else Ok((q.value, rest[v..]))
  }

  predicate IsLegacy(d: DataField) {
    d.typ == LOGINUID && d.value == UNSET
  }

  /**
   One turn of the loop of audit_data_to_entry. The value is stored only after audit_field_valid,
   which therefore always sees the zero the entry was allocated with.
   */
  function ParseField(env: Env, r: Rule, rest: Str, d: DataField): Result<(Rule, Str)> {
    var op := ToOp(d.flag);
    var t := if IsLegacy(d) then LOGINUID_SET else d.typ;
    var v := if IsLegacy(d) then 0 else d.value;
    if op == BAD || !FieldValid(r.listnr, t, op, 0) then Err(-EINVAL)
    else UseField(env, r.(legacy := r.legacy || IsLegacy(d)), rest, t, op, v)
  }

  function ParseFields(env: Env, r: Rule, rest: Str, ds: seq<DataField>): Result<Rule>
    decreases |ds|
  {
    if ds == [] then Ok(r)
    else
      var q := ParseField(env, r, rest, ds[0]);
      if q.Err? then Err(q.error) else ParseFields(env, q.value.0, q.value.1, ds[1..])
  }

  /** The syscall classes named by the highest bits of the mask are replaced by their members. */
  function Expand(classes: ClassTable, mask: set<nat>, i: nat): set<nat>
    decreases CLASSES - i
  {
    if i >= CLASSES then mask
    else
      var bit := BITS - i - 1;
      var next := if bit !in mask then mask
                  else mask - {bit} + (if i < |classes| && classes[i].Some? then classes[i].value else {});
      Expand(classes, next, i + 1)
  }

  function Listnr(flags: nat): nat {
    if flags / PREPEND % 2 == 1 then flags - PREPEND else flags
  }

  /** audit_to_entry_common. */
  function Common(classes: ClassTable, data: Data): Result<Rule> {
    var listnr := Listnr(data.flags);
    if listnr !in {USER, TASK, EXIT, EXCLUDE, FS, URING_EXIT} || (data.action != NEVER && data.action != ALWAYS)
       || data.fieldCount > MAX_FIELDS
    then Err(-EINVAL)
    else Ok(Rule(false, data.flags / PREPEND % 2 == 1, listnr, data.action, Expand(classes, data.mask, 0), 0, [],
                 None, None, None, None, None, None))
  }

  function DropInode(r: Rule): Rule {
    if r.inode.Some? && r.inode.value < |r.fields| && r.fields[r.inode.value].op == NOT_EQUAL then r.(inode := None) else r
  }

  predicate Shaped(data: Data) {
    |data.fields| == MAX_FIELDS
  }

  /** audit_data_to_entry. */
  function Parse(env: Env, classes: ClassTable, data: Data): Result<Rule>
    requires Shaped(data)
  {
    var entry := Common(classes, data);
    if entry.Err? then entry
    else
      var r := ParseFields(env, entry.value, data.buf, data.fields[..data.fieldCount]);
      if r.Err? then r else Ok(DropInode(r.value))
  }

  function Text(s: Option<Str>): Str {
    if s.Some? then CStr(s.value) else []
  }

  /** The string audit_krule_to_data packs for a field. */
  function Packed(r: Rule, f: Field): Str {
    match KindOf(f.typ)
    case Lsm => CStr(f.str)
    case Watch => Text(r.watch)
    case Dir => Text(r.tree)
    case Key => Text(r.key)
    case Exe => Text(r.exe)
    case _ => []
  }

  predicate PrintsLegacy(r: Rule, f: Field) {
    f.typ == LOGINUID_SET && r.legacy && f.val == 0
  }

  function PrintField(r: Rule, f: Field): DataField
    requires f.op < BAD
  {
    if HasString(KindOf(f.typ)) then DataField(f.typ, OPS[f.op], |Packed(r, f)|)
    else if PrintsLegacy(r, f) then DataField(LOGINUID, OPS[f.op], UNSET)
    else DataField(f.typ, OPS[f.op], f.val)
  }

  predicate OpsKnown(r: Rule) {
    |r.fields| <= MAX_FIELDS && forall i | 0 <= i < |r.fields| :: r.fields[i].op < BAD
  }

  function PrintFields(r: Rule, i: nat): seq<DataField>
    requires OpsKnown(r) && i <= |r.fields|
    decreases |r.fields| - i
  {
    if i == |r.fields| then [] else [PrintField(r, r.fields[i])] + PrintFields(r, i + 1)
  }

  function PackAll(r: Rule, i: nat): Str
    requires i <= |r.fields|
    decreases |r.fields| - i
  {
    if i == |r.fields| then [] else Packed(r, r.fields[i]) + PackAll(r, i + 1)
  }

  /** audit_krule_to_data; the unused slots of the arrays are zero. */
  function Print(r: Rule): (d: Data)
    requires OpsKnown(r)
  {
    var used := PrintFields(r, 0);
    Data((if r.prepend then PREPEND else 0) + r.listnr, r.action, |r.fields|, r.mask,
         used + seq(if |used| <= MAX_FIELDS then MAX_FIELDS - |used| else 0, _ => DataField(0, 0, 0)), PackAll(r, 0))
  }
}
