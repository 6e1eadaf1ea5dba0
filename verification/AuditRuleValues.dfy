/** What is true of every rule that audit_data_to_entry accepts: its values, and the room its strings need. */
module AuditRuleValues {
  import opened Wrappers
  import opened AuditRule
  import opened AuditRuleLaws

  /** A field of a rule would pass audit_field_valid with the value it ends up with. */
  predicate Checked(listnr: nat, f: Field) {
    FieldValid(listnr, f.typ, f.op, f.val)
  }

  /** The five types are treated as plain numbers. */
  lemma OnlyPlain(t: nat, v: nat)
    requires KindOf(t) != Plain
    ensures ValueOk(t, v)
  {
  }

  lemma NumberChecked(env: Env, r: Rule, rest: Str, t: nat, op: nat, v: nat, q: Rule, rest': Str)
    requires UseField(env, r, rest, t, op, v) == Ok((q, rest')) && |q.fields| == |r.fields| + 1
    ensures ValueOk(t, q.fields[|r.fields|].val) <==> ValueOk(t, v)
  {
    hide KindOf, ValueOk, UseString, Unpack;
    if KindOf(t) != Plain {
      OnlyPlain(t, v);
      OnlyPlain(t, q.fields[|r.fields|].val);
    }
  }

  /** One field: what the check would have said of the value is what it says of the value that was sent. */
  lemma FieldChecked(env: Env, r: Rule, rest: Str, d: DataField, q: Rule, rest': Str)
    requires ParseField(env, r, rest, d) == Ok((q, rest'))
    ensures |q.fields| == |r.fields| + 1
    ensures Checked(r.listnr, q.fields[|r.fields|]) <==> ValueOk(d.typ, d.value)
  {
    ParseGrows(env, r, rest, d, q, rest');
    var op := ToOp(d.flag);
    var t := if IsLegacy(d) then LOGINUID_SET else d.typ;
    var v := if IsLegacy(d) then 0 else d.value;
    var r' := r.(legacy := r.legacy || IsLegacy(d));
    FieldGrows(env, r', rest, t, op, v, q, rest');
    NumberChecked(env, r', rest, t, op, v, q, rest');
    hide UseField, ToOp;
  }

  lemma {:induction false} FieldsChecked(env: Env, r: Rule, rest: Str, ds: seq<DataField>, q: Rule)
    requires ParseFields(env, r, rest, ds) == Ok(q)
    ensures |q.fields| == |r.fields| + |ds| && q.listnr == r.listnr
    ensures forall i | 0 <= i < |ds| :: Checked(r.listnr, q.fields[|r.fields| + i]) <==> ValueOk(ds[i].typ, ds[i].value)
    decreases |ds|
  {
    hide ParseField, Checked, ValueOk;
    ParseAllGrows(env, r, rest, ds, q);
    if ds != [] {
      var p := ParseField(env, r, rest, ds[0]).value;
      var n := |r.fields|;
      ParseGrows(env, r, rest, ds[0], p.0, p.1);
      FieldChecked(env, r, rest, ds[0], p.0, p.1);
      ParseAllGrows(env, p.0, p.1, ds[1..], q);
      FieldsChecked(env, p.0, p.1, ds[1..], q);
      assert q.fields[n] == p.0.fields[n];
      forall i | 0 <= i < |ds| ensures Checked(r.listnr, q.fields[n + i]) <==> ValueOk(ds[i].typ, ds[i].value) {
        if i > 0 { assert ds[i] == ds[1..][i - 1] && n + i == |p.0.fields| + (i - 1); }
      }
    }
  }

  /** A truth value, four permission bits, a file type in bits 12 to 15, a comparison of 0 to 25, an address family below 46. */
  predicate Meaningful(t: nat, value: nat) {
    match t
    case 24 => value < 2
    case 106 => value < 16
    case 108 => value % 4096 == 0 && value / 4096 < 16
    case 111 => value < 26
    case 113 => value < 46
    case _ => true
  }

  lemma MeaningfulIs(t: nat, value: nat)
    ensures ValueOk(t, value) <==> Meaningful(t, value)
  {
  }

  /**
   The value checks come before the value is stored. An accepted rule therefore satisfies them exactly if the values that
   were sent do.
   */
  lemma ValuesUnchecked(env: Env, classes: ClassTable, data: Data, r: Rule)
    requires Shaped(data) && Parse(env, classes, data) == Ok(r)
    ensures data.fieldCount <= |data.fields|
    ensures (forall i | 0 <= i < |r.fields| :: Checked(r.listnr, r.fields[i]))
       <==> (forall i | 0 <= i < data.fieldCount :: Meaningful(data.fields[i].typ, data.fields[i].value))
  {
    hide ParseFields, Checked, ValueOk, Meaningful;
    var start := Common(classes, data).value;
    var ds := data.fields[..data.fieldCount];
    var end := ParseFields(env, start, data.buf, ds).value;
    FieldsChecked(env, start, data.buf, ds, end);
    assert forall i | 0 <= i < |ds| :: ds[i] == data.fields[i];
    assert forall i | 0 <= i < |ds| :: Checked(r.listnr, r.fields[i]) <==> ValueOk(ds[i].typ, ds[i].value);
    forall i | 0 <= i < |ds| ensures ValueOk(ds[i].typ, ds[i].value) <==> Meaningful(ds[i].typ, ds[i].value) {
      MeaningfulIs(ds[i].typ, ds[i].value);
    }
  }

  function PermData(value: nat): Data {
    Data(EXIT, ALWAYS, 1, {}, [DataField(PERM, OPS[EQUAL], value)] + seq(MAX_FIELDS - 1, _ => DataField(0, 0, 0)), [])
  }

  /** A rule on the permission bits 255, of which only the lowest four have a meaning, is accepted. */
  lemma BadPermAccepted(env: Env, classes: ClassTable) returns (r: Rule)
    ensures Shaped(PermData(255)) && Parse(env, classes, PermData(255)) == Ok(r)
    ensures r.listnr == EXIT && r.fields == [Field(PERM, EQUAL, 255, [])] && !Checked(EXIT, r.fields[0])
  {
    ExpandFixed(classes, {}, 0);
    hide Expand;
    var data := PermData(255);
    var start := Common(classes, data).value;
    var d := data.fields[0];
    assert data.fields[..1] == [d];
    r := Add(start, Field(PERM, EQUAL, 255, []));
    assert ParseField(env, start, [], d) == Ok((r, []));
    assert [d][1..] == [];
    assert ParseFields(env, start, [], [d]) == ParseFields(env, r, [], []);
  }

  // The buffer of the printed rule.

  lemma FieldRoom(env: Env, r: Rule, rest: Str, d: DataField, q: Rule, rest': Str, end: Rule)
    requires ParseField(env, r, rest, d) == Ok((q, rest')) && Later(q, end)
    ensures |q.fields| == |r.fields| + 1
    ensures q.buflen >= r.buflen + |Packed(end, q.fields[|r.fields|])|
  {
    ParseGrows(env, r, rest, d, q, rest');
    var op := ToOp(d.flag);
    var t := if IsLegacy(d) then LOGINUID_SET else d.typ;
    var v := if IsLegacy(d) then 0 else d.value;
    var r' := r.(legacy := r.legacy || IsLegacy(d));
    FieldGrows(env, r', rest, t, op, v, q, rest');
    if HasString(KindOf(t)) {
      StringField(env, r', rest, t, op, v, q, rest');
      StringGrows(env, r', t, op, rest[..v], q);
    } else {
      NumberField(env, r', rest, t, op, v, q, rest');
    }
    hide UseField, UseString, ToOp, FieldValid, KindOf;
  }

  lemma Prefix(q: Rule, end: Rule)
    requires Later(q, end)
    ensures q.fields <= end.fields
  {
  }

  lemma {:induction false} FieldsRoom(env: Env, r: Rule, rest: Str, ds: seq<DataField>, end: Rule)
    requires ParseFields(env, r, rest, ds) == Ok(end)
    ensures |r.fields| <= |end.fields| && end.buflen >= r.buflen + |PackAll(end, |r.fields|)|
    decreases |ds|
  {
    hide ParseField, Packed, Later;
    ParseAllGrows(env, r, rest, ds, end);
    if ds != [] {
      var p := ParseField(env, r, rest, ds[0]).value;
      ParseGrows(env, r, rest, ds[0], p.0, p.1);
      ParseAllGrows(env, p.0, p.1, ds[1..], end);
      FieldRoom(env, r, rest, ds[0], p.0, p.1, end);
      FieldsRoom(env, p.0, p.1, ds[1..], end);
      assert p.0.fields <= end.fields by { Prefix(p.0, end); }
      assert end.fields[|r.fields|] == p.0.fields[|r.fields|];
    }
  }

  /** audit_krule_to_data allocates buflen bytes for the strings, which is enough for every accepted rule. */
  lemma StringsFit(env: Env, classes: ClassTable, data: Data, r: Rule)
    requires Shaped(data) && Parse(env, classes, data) == Ok(r)
    ensures |PackAll(r, 0)| <= r.buflen
  {
    hide ParseFields;
    var start := Common(classes, data).value;
    var ds := data.fields[..data.fieldCount];
    var end := ParseFields(env, start, data.buf, ds).value;
    FieldsRoom(env, start, data.buf, ds, end);
    ParseAllGrows(env, start, data.buf, ds, end);
    SamePrint(end, r, 0);
  }
}
