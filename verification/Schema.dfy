/** Direct interpretation of schema constraints (crates/statguardian-validators/src/schema.rs). */
module Schema {
  import opened Sequences
  import opened Ast
  import F = Frames

  function ConstraintViolations(be: F.Backend, s: F.Series, column: string, c: Constraint): seq<Violation> {
    match c
    case NotNull => F.NullViolation(s, column, "not_null", Error)
    case PrimaryKey => F.NullViolation(s, column, "not_null", Error)
    case Unique =>
      var unique, total := (match F.NUnique(be, s) case None => 0 case Some(u) => u), |s.cells|;
      if unique != total
      then [F.Aggregate(column, "uniqueness", Error, Some(unique as real), Some(total as real))] else []
    case Positive => F.NumericCheck(be, s, column, "positive", Error, F.NotPositive())
    case Negative => F.NumericCheck(be, s, column, "negative", Error, F.NotNegative())
    case Between(min, max) => F.NumericCheck(be, s, column, "between", Error, OutsideBetween(min, max))
    case Min(value) => F.NumericCheck(be, s, column, "min", Error, BelowMin(value))
    case Max(value) => F.NumericCheck(be, s, column, "max", Error, AboveMax(value))
    case Regex(pattern) => F.RegexCheck(be, s, column, Error, pattern)
    case Len(min, max) => F.TextCheck(s, column, "len", Error, F.BadLength(min, max))
    case Enum(values) => F.TextCheck(s, column, "enum", Error, F.NotAllowed(values))
    case Coerce => []
    case ForeignKey(_, _) => []
  }

  /** The name under which a constraint reports; empty for those that are not checked. */
  function ConstraintName(c: Constraint): string {
    match c
    case NotNull => "not_null"
    case PrimaryKey => "not_null"
    case Unique => "uniqueness"
    case Positive => "positive"
    case Negative => "negative"
    case Between(_, _) => "between"
    case Min(_) => "min"
    case Max(_) => "max"
    case Regex(_) => "regex"
    case Len(_, _) => "len"
    case Enum(_) => "enum"
    case Coerce => ""
    case ForeignKey(_, _) => ""
  }

  function OutsideBetween(min: real, max: real): real -> bool { x => x < min || x > max }

  function BelowMin(value: real): real -> bool { x => x < value }

  function AboveMax(value: real): real -> bool { x => x > value }

  function AllConstraintViolations(be: F.Backend, s: F.Series, column: string, cs: seq<Constraint>): seq<Violation> {
    if cs == [] then [] else
      AllConstraintViolations(be, s, column, cs[..|cs| - 1]) + ConstraintViolations(be, s, column, cs[|cs| - 1])
  }

  predicate TypeMatches(expected: DataType, actual: F.DType) {
    match expected
    case IntType => actual.Integral?
    case FloatType => actual.Floating?
    case StringType => actual.Text?
    case BoolType => actual.Boolean?
    case DateType => actual.Date?
    case DatetimeType => actual.Datetime?
    case BytesType => actual.Binary?
  }

  function TypeViolations(s: F.Series, field: FieldDef): seq<Violation> {
    if TypeMatches(field.dataType, s.dtype) then []
    else [F.Aggregate(field.name, "type_check", if Coerce in field.constraints then Warning else Blocking, None, None)]
  }

  function FieldViolations(be: F.Backend, frame: F.Frame, field: FieldDef): seq<Violation> {
    if field.name !in frame then [F.Aggregate(field.name, "column_exists", Blocking, None, None)]
    else (
      var s := frame[field.name];
      TypeViolations(s, field) + AllConstraintViolations(be, s, field.name, field.constraints))
  }

  function SchemaViolations(be: F.Backend, frame: F.Frame, fields: seq<FieldDef>): seq<Violation> {
    if fields == [] then [] else
      SchemaViolations(be, frame, fields[..|fields| - 1]) + FieldViolations(be, frame, fields[|fields| - 1])
  }

  method CheckConstraints(be: F.Backend, s: F.Series, column: string, cs: seq<Constraint>) returns (violations: seq<Violation>)
    ensures violations == AllConstraintViolations(be, s, column, cs)
  {
    violations := [];
    for i := 0 to |cs|
      invariant violations == AllConstraintViolations(be, s, column, cs[..i])
    {
      assert cs[..i + 1][..i] == cs[..i];
      violations := violations + ConstraintViolations(be, s, column, cs[i]);
    }
    assert cs[..|cs|] == cs;
  }

  method Validate(be: F.Backend, frame: F.Frame, fields: seq<FieldDef>) returns (violations: seq<Violation>)
    ensures violations == SchemaViolations(be, frame, fields)
  {
    violations := [];
    for i := 0 to |fields|
      invariant violations == SchemaViolations(be, frame, fields[..i])
    {
      var field := fields[i];
      assert fields[..i + 1][..i] == fields[..i];
      if field.name !in frame {
        violations := violations + [F.Aggregate(field.name, "column_exists", Blocking, None, None)];
      } else {
        var found := CheckConstraints(be, frame[field.name], field.name, field.constraints);
        Regroup(violations, TypeViolations(frame[field.name], field), found);
        violations := violations + TypeViolations(frame[field.name], field);
        violations := violations + found;
      }
    }
    assert fields[..|fields|] == fields;
  }

  lemma {:induction false} ConstraintMember(be: F.Backend, s: F.Series, column: string, cs: seq<Constraint>, v: Violation)
    ensures v in AllConstraintViolations(be, s, column, cs) <==>
      exists c :: c in cs && v in ConstraintViolations(be, s, column, c)
  {
    if cs == [] {
    } else {
      var init, last := cs[..|cs| - 1], cs[|cs| - 1];
      ConstraintMember(be, s, column, init, v);
      assert forall c :: c in cs <==> c in init || c == last;
    }
  }

  /** Schema violations, field by field. */
  lemma {:induction false} SchemaMember(be: F.Backend, frame: F.Frame, fields: seq<FieldDef>, v: Violation)
    ensures v in SchemaViolations(be, frame, fields) <==>
      exists field :: field in fields && v in FieldViolations(be, frame, field)
  {
    if fields == [] {
    } else {
      var init, last := fields[..|fields| - 1], fields[|fields| - 1];
      SchemaMember(be, frame, init, v);
      assert forall field :: field in fields <==> field in init || field == last;
    }
  }
}
