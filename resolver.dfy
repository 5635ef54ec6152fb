/** The field resolver: finds the value of the struct field whose `json` tag equals a name,
    following pointers first. */
module Resolver {
  import opened Values

  /** One struct field as `reflect` sees it: the full text of its `json` tag ("" when untagged)
      and its current value. */
  datatype StructField = StructField(tag: string, value: Value)

  /** The `data` argument of Validate as a `reflect.Value`: a struct, a pointer to another value,
      the invalid zero Value (what a nil interface or the target of a nil pointer gives), or any
      other kind. A nil pointer is `Pointer(Invalid)`. */
  datatype Data =
    | Struct(fields: seq<StructField>)
    | Pointer(elem: Data)
    | Invalid
    | NonStruct

  /** What the `for val.Kind() == reflect.Ptr` loop ends on. */
  function Deref(data: Data): (r: Data)
    ensures !r.Pointer?
  {
    if data.Pointer? then Deref(data.elem) else data
  }

  /** Index i holds the first field whose tag is `tag`. */
  predicate IsFirstWithTag(fields: seq<StructField>, tag: string, i: int) {
    0 <= i < |fields| && fields[i].tag == tag &&
    forall j | 0 <= j < i :: fields[j].tag != tag
  }

  /** The value of the first field tagged `tag`, or nil when no field carries that tag. */
  function FieldWithTag(fields: seq<StructField>, tag: string): Value {
    if fields == [] then Absent
    else if fields[0].tag == tag then fields[0].value
    else FieldWithTag(fields[1..], tag)
  }

  /** `getFieldByJsonTag`, as a function of its inputs. */
  function FieldByJsonTag(data: Data, field: string): Value {
    var val := Deref(data);
    if val.Struct? then FieldWithTag(val.fields, field) else Absent
  }

  /** `getField`: a nil result, whether no field matched or the matching field holds nil, is
      the error "field not found: <name>". */
  function ResolveField(data: Data, field: string): Result<Value> {
    var value := FieldByJsonTag(data, field);
    if value == Absent then Err("field not found: " + field) else Ok(value)
  }

  /** FieldWithTag returns the first match's value, and nil when nothing matches. */
  lemma {:induction false} FieldWithTagIsFirstMatch(fields: seq<StructField>, tag: string)
    ensures forall i | IsFirstWithTag(fields, tag, i) :: FieldWithTag(fields, tag) == fields[i].value
    ensures (forall j | 0 <= j < |fields| :: fields[j].tag != tag) ==> FieldWithTag(fields, tag) == Absent
  {
    if fields != [] && fields[0].tag != tag {
      var rest := fields[1..];
      FieldWithTagIsFirstMatch(rest, tag);
      forall i | IsFirstWithTag(fields, tag, i) ensures FieldWithTag(fields, tag) == fields[i].value {
        assert IsFirstWithTag(rest, tag, i - 1);
      }
      if forall j | 0 <= j < |fields| :: fields[j].tag != tag {
        assert forall j | 0 <= j < |rest| :: rest[j].tag != tag by {
          forall j | 0 <= j < |rest| ensures rest[j].tag != tag { assert rest[j] == fields[j + 1]; }
        }
      }
    }
  }

  /** Resolution succeeds with v exactly when, after following pointers, the data is a struct whose
      first field tagged `field` holds the non-nil value v; otherwise the error names the field. */
  lemma ResolveFieldSpec(data: Data, field: string, v: Value)
    ensures ResolveField(data, field) == Ok(v) <==>
              Deref(data).Struct? && v != Absent &&
              exists i :: IsFirstWithTag(Deref(data).fields, field, i) && Deref(data).fields[i].value == v
    ensures ResolveField(data, field).Err? ==> ResolveField(data, field).error == "field not found: " + field
  {
    var val := Deref(data);
    if val.Struct? {
      FieldWithTagIsFirstMatch(val.fields, field);
      if FieldWithTag(val.fields, field) != Absent {
        var i := FirstTagIndex(val.fields, field);
      }
    }
  }

  /** A field that FieldWithTag finds non-nil sits at the first index carrying the tag. */
  lemma {:induction false} FirstTagIndex(fields: seq<StructField>, tag: string) returns (i: int)
    requires FieldWithTag(fields, tag) != Absent
    ensures IsFirstWithTag(fields, tag, i) && fields[i].value == FieldWithTag(fields, tag)
  {
    if fields[0].tag == tag {
      i := 0;
    } else {
      var k := FirstTagIndex(fields[1..], tag);
      i := k + 1;
    }
  }

  /** Pointers are transparent: resolving through any chain of non-nil pointers is resolving the
      target; a nil pointer, like a non-struct, resolves nothing. */
  lemma PointersAreTransparent(data: Data, field: string)
    ensures ResolveField(Pointer(data), field) == ResolveField(data, field)
    ensures ResolveField(Pointer(Invalid), field).Err?
    ensures ResolveField(NonStruct, field).Err?
  {
  }

  /** `getFieldByJsonTag`: follow pointers, give up unless the result is a struct, then scan the
      fields in declaration order for the tag. */
  method GetFieldByJsonTag(data: Data, field: string) returns (value: Value)
    ensures value == FieldByJsonTag(data, field)
    ensures Deref(data).Struct? && value != Absent ==>
              exists i :: IsFirstWithTag(Deref(data).fields, field, i) && Deref(data).fields[i].value == value
  {
    var val := data;
    while val.Pointer?
      invariant Deref(val) == Deref(data)
      decreases val
    {
      val := val.elem;
    }
    if !val.Struct? {
      return Absent;
    }
    var fields := val.fields;
    for i := 0 to |fields|
      invariant forall j | 0 <= j < i :: fields[j].tag != field
    {
      if fields[i].tag == field {
        FieldWithTagIsFirstMatch(fields, field);
        assert IsFirstWithTag(fields, field, i);
        return fields[i].value;
      }
    }
    FieldWithTagIsFirstMatch(fields, field);
    return Absent;
  }

  /** `getField` */
  method GetField(data: Data, field: string) returns (r: Result<Value>)
    ensures r == ResolveField(data, field)
    ensures r.Ok? ==> r.value != Absent
    ensures r.Err? ==> r.error == "field not found: " + field
  {
    var value := GetFieldByJsonTag(data, field);
    if value == Absent {
      return Err("field not found: " + field);
    }
    return Ok(value);
  }
}
