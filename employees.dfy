/**
 * The sample application's models (Office, Department, Employee) as a registry, and the
 * behaviour the mapper promises on them: how their relationship paths group and fail.
 */
module Employees {
  import opened Values
  import opened Fields
  import opened Models
  import opened Paths
  import opened Validation
  import opened InMemoryJsonFile

  /** Office: id (key), city, country, address. */
  const Office: Schema := Schema(["id", "city", "country", "address"],
    map["id" := IntegerField(isKey := true), "city" := StringField(),
        "country" := StringField(), "address" := StringField()])

  /** Department: id (key), name, superdepartment relating to Department itself. */
  const Department: Schema := Schema(["id", "name", "superdepartment"],
    map["id" := IntegerField(isKey := true), "name" := StringField(),
        "superdepartment" := RelatedModelField(ModelName("self"), nullable := true)])

  /** Employee: id (key), first, last, manager (an Employee), department and office. */
  const Employee: Schema := Schema(["id", "first", "last", "manager", "department", "office"],
    map["id" := IntegerField(isKey := true), "first" := StringField(), "last" := StringField(),
        "manager" := RelatedModelField(ModelName("self"), nullable := true),
        "department" := RelatedModelField(ModelClass("Department"), nullable := true),
        "office" := RelatedModelField(ModelClass("Office"), nullable := true)])

  const Classes: Registry := map["Office" := Office, "Department" := Department, "Employee" := Employee]

  /** Every class a field of s relates to is registered in reg. */
  predicate RelatesWithin(s: Schema, reg: Registry)
  {
    forall f :: f in s.fields && s.fields[f].related.ModelClass? ==> s.fields[f].related.target in reg
  }

  lemma OfficeRelatesWithin()
    ensures RelatesWithin(Office, Classes)
  {
  }

  lemma DepartmentRelatesWithin()
    ensures RelatesWithin(Department, Classes)
  {
  }

  lemma EmployeeRelatesWithin()
    ensures RelatesWithin(Employee, Classes)
  {
    forall f | f in Employee.fields && Employee.fields[f].related.ModelClass?
      ensures Employee.fields[f].related.target in Classes
    {
      assert f in Employee.names;
    }
  }

  /** Every class a field relates to is registered: Department and Office for Employee, and "self". */
  lemma ClassesClosed()
    ensures Closed(Classes)
  {
    OfficeRelatesWithin();
    DepartmentRelatesWithin();
    EmployeeRelatesWithin();
    ClosedOfThree(Classes, "Office", "Department", "Employee", Office, Department, Employee);
  }

  /** A registry of three classes is closed when each of them relates only within it. */
  lemma {:induction false} ClosedOfThree(reg: Registry, a: TypeName, b: TypeName, c: TypeName, sa: Schema, sb: Schema, sc: Schema)
    requires reg == map[a := sa, b := sb, c := sc]
    requires RelatesWithin(sa, reg) && RelatesWithin(sb, reg) && RelatesWithin(sc, reg)
    ensures Closed(reg)
  {
    forall t | t in reg ensures RelatesWithin(reg[t], reg) {
      assert t == a || t == b || t == c;
    }
  }

  /** A field with no related model cannot be followed: Employee.get(with_related=['first']) fails. */
  lemma FirstHasNoRelatedModel()
    ensures Closed(Classes) && Validated(Classes, "Employee", ["first"]) == Err(NoRelatedModel("Employee", "first"))
  {
    ClassesClosed();
    var ps := ["first"];
    assert ps[..0] == [];
    SplitNoSeparator("first");
    assert Employee.fields["first"].related == NoRelated;
    assert AddPath(Classes, "Employee", [], "first") == Err(NoRelatedModel("Employee", "first"));
    assert Normalize(Classes, "Employee", ps) == Err(NoRelatedModel("Employee", "first"));
  }

  /**
   * A path whose head is not an Employee field is reported with the model's name and that
   * head, as Employee.get(with_related=['undefined_related_model']) is.
   */
  lemma {:induction false} UnknownRelatedField(p: string)
    requires SplitPath(p).0 !in Employee.fields
    ensures Closed(Classes) && Validated(Classes, "Employee", [p]) == Err(UndefinedField("Employee", {SplitPath(p).0}))
  {
    ClassesClosed();
    var ps := [p];
    assert ps[..0] == [];
    assert Normalize(Classes, "Employee", ps) == Err(UndefinedField("Employee", {SplitPath(p).0}));
  }

  /**
   * The office data holds five offices with ids 1 to 5 in file order: get() returns all five,
   * and get(limit=2, offset=2) returns the offices with ids 3 and 4.
   */
  lemma {:induction false} OfficePages(idx: Index)
    requires idx.order == [I(1), I(2), I(3), I(4), I(5)]
    ensures |Page(idx, None, None)| == 5
    ensures Page(idx, Some(2), Some(2)) == [idx.byKey[I(3)], idx.byKey[I(4)]]
  {
    PageAll(idx);
    PageWindow(idx, Some(2), Some(2));
  }

  /** A path without a separator is its own head. */
  lemma {:induction false} SplitNoSeparator(p: string)
    requires Separator !in p
    ensures SplitPath(p) == (p, "")
  {
  }
}
