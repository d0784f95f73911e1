/** Values, validation results and the object schemas the auth forms use,
    modelled on the schema library's behaviour: a field's rule yields an
    output, the messages of every failed check and whether it aborted; an
    object reports each field's issues under the field's name; a refinement
    on an object runs only when no field aborted, and the refined schema no
    longer exposes its per-field rules. */
module Forms {

  datatype Option<+T> = None | Some(value: T)

  /** A form value as the auth forms produce it: text inputs give strings, the
      remember-me checkbox gives a boolean, and a field never written reads as
      JavaScript's undefined. */
  datatype Value = Undefined | Str(s: string) | Bool(b: bool)

  /** The outcome of one field rule: the (possibly transformed) output value,
      the messages of every check that failed, in check order, and whether the
      failure is fatal (a type error), which stops refinements further out. */
  datatype Check = Check(output: Value, messages: seq<string>, aborted: bool) {
    predicate Ok() { |messages| == 0 }
  }

  /** One whole-form issue: the first segment of its path, when it has one,
      and its message. */
  datatype Issue = Issue(head: Option<string>, message: string)

  datatype ParseResult = Success(data: map<string, Value>) | Failure(issues: seq<Issue>)

  /** Reading a key of a plain object: an absent key reads as undefined. */
  function Lookup(m: map<string, Value>, key: string): (v: Value)
    ensures key !in m ==> v == Undefined
    ensures key in m ==> v == m[key]
  {
    if key in m then m[key] else Undefined
  }

  // ---- Object schemas ----

  /** A named field of an object schema and its rule. */

  datatype Field = Field(name: string, rule: Value -> Check)

  function RunField(f: Field, input: map<string, Value>): Check
  {
    f.rule(Lookup(input, f.name))
  }

  /** The issues, the output object and whether some field aborted. */
  datatype ObjectParse = ObjectParse(issues: seq<Issue>, data: map<string, Value>, aborted: bool)

  function IssuesAt(name: string, messages: seq<string>): (r: seq<Issue>)
    ensures |r| == |messages|
    ensures forall k :: 0 <= k < |r| ==> r[k] == Issue(Some(name), messages[k])
  {
    seq(|messages|, k requires 0 <= k < |messages| => Issue(Some(name), messages[k]))
  }

  predicate Reports(fields: seq<Field>, input: map<string, Value>, iss: Issue)
  {
    exists i :: 0 <= i < |fields| && iss.head == Some(fields[i].name) && iss.message in RunField(fields[i], input).messages
  }

  /** Parses each field in order and gathers the issues, each under its
      field's name; an output key is set when the field's output is defined or
      the key was present in the input. */
  function ParseObject(fields: seq<Field>, input: map<string, Value>): (p: ObjectParse)
    ensures |fields| == 0 ==> p == ObjectParse([], map[], false)
  {
    if |fields| == 0 then ObjectParse([], map[], false)
    else
      var f := fields[0];
      var c := RunField(f, input);
      var rest := ParseObject(fields[1..], input);
      ObjectParse(IssuesAt(f.name, c.messages) + rest.issues,
                  if c.output != Undefined || f.name in input then rest.data[f.name := c.output] else rest.data,
                  c.aborted || rest.aborted)
  }

  /** The object aborts exactly when one of its fields does. */
  lemma {:induction false} ParseObjectAborted(fields: seq<Field>, input: map<string, Value>)
    ensures ParseObject(fields, input).aborted <==> exists i :: 0 <= i < |fields| && RunField(fields[i], input).aborted
  {
    if |fields| > 0 {
      ParseObjectAborted(fields[1..], input);
      assert forall i :: 1 <= i < |fields| ==> fields[i] == fields[1..][i - 1];
    }
  }

  /** A field that aborts makes the object abort. */
  lemma {:induction false} ParseObjectAbortedAt(fields: seq<Field>, input: map<string, Value>, i: nat)
    requires i < |fields|
    ensures RunField(fields[i], input).aborted ==> ParseObject(fields, input).aborted
  {
    if i > 0 {
      ParseObjectAbortedAt(fields[1..], input, i - 1);
      assert fields[1..][i - 1] == fields[i];
    }
  }

  /** The object has no issue exactly when every field passes. */
  lemma {:induction false} ParseObjectClean(fields: seq<Field>, input: map<string, Value>)
    ensures |ParseObject(fields, input).issues| == 0 <==> forall i :: 0 <= i < |fields| ==> RunField(fields[i], input).Ok()
  {
    if |fields| > 0 {
      ParseObjectClean(fields[1..], input);
      assert forall i :: 1 <= i < |fields| ==> fields[i] == fields[1..][i - 1];
    }
  }

  /** Every issue is one of a field's messages, filed under that field's name. */
  lemma {:induction false} ParseObjectSound(fields: seq<Field>, input: map<string, Value>)
    ensures forall j :: 0 <= j < |ParseObject(fields, input).issues| ==> Reports(fields, input, ParseObject(fields, input).issues[j])
  {
    if |fields| > 0 {
      var f := fields[0];
      var c := RunField(f, input);
      var rest := ParseObject(fields[1..], input);
      var p := ParseObject(fields, input);
      ParseObjectSound(fields[1..], input);
      forall j | 0 <= j < |p.issues| ensures Reports(fields, input, p.issues[j]) {
        if j < |c.messages| {
          assert p.issues[j] == Issue(Some(f.name), c.messages[j]);
        } else {
          var iss := rest.issues[j - |c.messages|];
          assert Reports(fields[1..], input, iss);
          var i :| 0 <= i < |fields[1..]| && iss.head == Some(fields[1..][i].name) && iss.message in RunField(fields[1..][i], input).messages;
          assert fields[1..][i] == fields[i + 1];
        }
      }
    }
  }

  /** An issue filed under a field's unique name is one of that field's
      messages. */
  lemma {:induction false} ParseObjectIssueAt(fields: seq<Field>, input: map<string, Value>, i: nat, j: nat)
    requires i < |fields| && UniqueAt(fields, i)
    requires j < |ParseObject(fields, input).issues| && ParseObject(fields, input).issues[j].head == Some(fields[i].name)
    ensures ParseObject(fields, input).issues[j].message in RunField(fields[i], input).messages
  {
    var iss := ParseObject(fields, input).issues[j];
    ParseObjectSound(fields, input);
    assert Reports(fields, input, iss);
    var k :| 0 <= k < |fields| && iss.head == Some(fields[k].name) && iss.message in RunField(fields[k], input).messages;
  }

  /** Every message of every field appears as an issue under that field's name. */
  lemma {:induction false} ParseObjectComplete(fields: seq<Field>, input: map<string, Value>, i: nat, k: nat)
    requires i < |fields| && k < |RunField(fields[i], input).messages|
    ensures Issue(Some(fields[i].name), RunField(fields[i], input).messages[k]) in ParseObject(fields, input).issues
  {
    var p := ParseObject(fields, input);
    if i == 0 {
      assert p.issues[k] == Issue(Some(fields[0].name), RunField(fields[0], input).messages[k]);
    } else {
      ParseObjectComplete(fields[1..], input, i - 1, k);
      assert fields[1..][i - 1] == fields[i];
    }
  }

  /** Issue `j` carries the last of `ms` under `n`, and no later issue is
      filed under `n`. */
  predicate LastIssueAt(issues: seq<Issue>, j: int, n: string, ms: seq<string>)
  {
    0 <= j < |issues| && |ms| > 0 && issues[j] == Issue(Some(n), ms[|ms| - 1])
    && forall l :: j < l < |issues| ==> issues[l].head != Some(n)
  }

  /** Issues come in field order, each field's in check order: the last
      issue filed under a uniquely named field carries its rule's last
      message. */
  lemma {:induction false} ParseObjectLastIssue(fields: seq<Field>, input: map<string, Value>, i: nat)
    requires i < |fields| && UniqueAt(fields, i) && |RunField(fields[i], input).messages| > 0
    ensures exists j :: LastIssueAt(ParseObject(fields, input).issues, j, fields[i].name, RunField(fields[i], input).messages)
  {
    var p := ParseObject(fields, input).issues;
    var n := fields[i].name;
    var c := RunField(fields[0], input);
    var rest := ParseObject(fields[1..], input).issues;
    assert p == IssuesAt(fields[0].name, c.messages) + rest;
    if i == 0 {
      ParseObjectSound(fields[1..], input);
      forall l | |c.messages| <= l < |p| ensures p[l].head != Some(n) {
        assert Reports(fields[1..], input, rest[l - |c.messages|]);
        var k :| 0 <= k < |fields[1..]| && rest[l - |c.messages|].head == Some(fields[1..][k].name);
        assert fields[1..][k] == fields[k + 1];
      }
      assert p[|c.messages| - 1] == Issue(Some(n), c.messages[|c.messages| - 1]);
      assert LastIssueAt(p, |c.messages| - 1, n, c.messages);
    } else {
      UniqueTail(fields, i);
      ParseObjectLastIssue(fields[1..], input, i - 1);
      var j :| LastIssueAt(rest, j, n, RunField(fields[i], input).messages);
      var ms := RunField(fields[i], input).messages;
      assert p[|c.messages| + j] == rest[j] == Issue(Some(n), ms[|ms| - 1]);
      forall l | |c.messages| + j < l < |p| ensures p[l].head != Some(n) {
        assert p[l] == rest[l - |c.messages|];
      }
      var k := |c.messages| + j;
      assert LastIssueAt(p, k, n, ms);
    }
  }

  /** No other field has the name of field `i`. */
  predicate UniqueAt(fields: seq<Field>, i: nat)
    requires i < |fields|
  {
    forall j :: 0 <= j < |fields| && j != i ==> fields[j].name != fields[i].name
  }

  /** A unique name stays unique once the first field is dropped. */
  lemma UniqueTail(fields: seq<Field>, i: nat)
    requires 0 < i < |fields| && UniqueAt(fields, i)
    ensures fields[1..][i - 1] == fields[i] && fields[0].name != fields[i].name
    ensures UniqueAt(fields[1..], i - 1)
  {
    forall j | 0 <= j < |fields[1..]| && j != i - 1 ensures fields[1..][j].name != fields[1..][i - 1].name {
      assert fields[1..][j] == fields[j + 1];
    }
  }

  /** For a field whose name is unique, its output is in the output object
      exactly when it is defined or its key was in the input. */
  lemma {:induction false} ParseObjectData(fields: seq<Field>, input: map<string, Value>, i: nat)
    requires i < |fields| && UniqueAt(fields, i)
    ensures var p, c, n := ParseObject(fields, input), RunField(fields[i], input), fields[i].name;
            (n in p.data <==> c.output != Undefined || n in input) && (n in p.data ==> p.data[n] == c.output)
  {
    if i > 0 {
      UniqueTail(fields, i);
      ParseObjectData(fields[1..], input, i - 1);
      var rest := ParseObject(fields[1..], input);
      var n := fields[i].name;
      assert n in ParseObject(fields, input).data <==> n in rest.data;
      assert n in rest.data ==> ParseObject(fields, input).data[n] == rest.data[n];
    } else {
      forall n | n in ParseObject(fields[1..], input).data ensures n != fields[0].name {
        ParseObjectDataKeys(fields[1..], input, n);
        var j :| 0 <= j < |fields[1..]| && fields[1..][j].name == n;
        assert fields[1..][j] == fields[j + 1];
      }
    }
  }

  /** The output object has no key outside the shape. */
  lemma {:induction false} ParseObjectDataKeys(fields: seq<Field>, input: map<string, Value>, n: string)
    requires n in ParseObject(fields, input).data
    ensures exists i :: 0 <= i < |fields| && fields[i].name == n
  {
    if fields[0].name != n {
      ParseObjectDataKeys(fields[1..], input, n);
      var i :| 0 <= i < |fields[1..]| && fields[1..][i].name == n;
      assert fields[i + 1] == fields[1..][i];
    }
  }

  function ShapeOf(fields: seq<Field>): (shape: map<string, Value -> Check>)
    ensures forall i :: 0 <= i < |fields| ==> fields[i].name in shape
    ensures forall n :: n in shape ==> exists i :: 0 <= i < |fields| && fields[i].name == n
  {
    if |fields| == 0 then map[]
    else
      var rest := ShapeOf(fields[1..]);
      assert forall i :: 1 <= i < |fields| ==> fields[i] == fields[1..][i - 1];
      rest[fields[0].name := fields[0].rule]
  }

  /** The shape stores each uniquely named field's own rule under its name,
      which is the rule `shape[field]` gives to field validation. */
  lemma {:induction false} ShapeOfRule(fields: seq<Field>, i: nat)
    requires i < |fields| && UniqueAt(fields, i)
    ensures fields[i].name in ShapeOf(fields) && ShapeOf(fields)[fields[i].name] == fields[i].rule
  {
    if i > 0 {
      UniqueTail(fields, i);
      ShapeOfRule(fields[1..], i - 1);
    }
  }

  function Finish(p: ObjectParse): (r: ParseResult)
    ensures r.Success? <==> |p.issues| == 0
  {
    if |p.issues| == 0 then Success(p.data) else Failure(p.issues)
  }

  /** `.refine(data => data[key] === data[other], { message, path: [other] })`. */
  datatype Refinement = SameValue(key: string, other: string, message: string)

  /** `z.object(fields)`, refined when `refinement` is present. */
  datatype Schema = Schema(fields: seq<Field>, refinement: Option<Refinement>)

  /** The per-field rules a schema exposes: a plain object its shape, a
      refined object none. */
  function Shape(schema: Schema): (shape: Option<map<string, Value -> Check>>)
    ensures shape.Some? <==> schema.refinement.None?
  {
    if schema.refinement.None? then Some(ShapeOf(schema.fields)) else None
  }

  /** The per-field rule a schema offers for `field`, if any. */
  function RuleFor(schema: Option<Schema>, field: string): Option<Value -> Check>
  {
    if schema.Some? && Shape(schema.value).Some? && field in Shape(schema.value).value
    then Some(Shape(schema.value).value[field])
    else None
  }

  function Holds(r: Refinement, data: map<string, Value>): bool
  {
    Lookup(data, r.key) == Lookup(data, r.other)
  }

  /** `schema.safeParse(input)`: a refinement adds its issue, under `other`,
      after the field issues, and is skipped when a field aborted. */
  function Parse(schema: Schema, input: map<string, Value>): ParseResult
  {
    var p := ParseObject(schema.fields, input);
    match schema.refinement
    case None => Finish(p)
    case Some(r) =>
      if p.aborted then Failure(p.issues)
      else Finish(ObjectParse(p.issues + (if Holds(r, p.data) then [] else [Issue(Some(r.other), r.message)]), p.data, false))
  }

  /** A refinement that fails after a parse with no aborted field appends
      its issue, under `other`, to the field issues. */
  lemma RefinementFails(schema: Schema, input: map<string, Value>)
    requires schema.refinement.Some?
    requires !ParseObject(schema.fields, input).aborted
    requires !Holds(schema.refinement.value, ParseObject(schema.fields, input).data)
    ensures var r := schema.refinement.value;
      && Parse(schema, input).Failure?
      && Parse(schema, input).issues == ParseObject(schema.fields, input).issues + [Issue(Some(r.other), r.message)]
  {
  }

  /** A uniquely named field whose rule passes its value through reads the
      same in the output object as in the input. */
  lemma ParseObjectPassThrough(fields: seq<Field>, input: map<string, Value>, i: nat)
    requires i < |fields| && UniqueAt(fields, i)
    requires RunField(fields[i], input).output == Lookup(input, fields[i].name)
    ensures Lookup(ParseObject(fields, input).data, fields[i].name) == Lookup(input, fields[i].name)
  {
    ParseObjectData(fields, input, i);
  }

  /** A refined object whose aborting fields always report a message is
      accepted exactly when every field passes and the refinement holds. */
  lemma {:induction false} RefinedAccepts(schema: Schema, input: map<string, Value>)
    requires schema.refinement.Some?
    requires forall i :: 0 <= i < |schema.fields| && RunField(schema.fields[i], input).aborted ==>
      !RunField(schema.fields[i], input).Ok()
    ensures Parse(schema, input).Success? <==>
      (forall i :: 0 <= i < |schema.fields| ==> RunField(schema.fields[i], input).Ok())
      && Holds(schema.refinement.value, ParseObject(schema.fields, input).data)
  {
    ParseObjectClean(schema.fields, input);
    ParseObjectAborted(schema.fields, input);
  }

  /** A plain object is accepted exactly when every field passes. */
  lemma {:induction false} PlainAccepts(schema: Schema, input: map<string, Value>)
    requires schema.refinement.None?
    ensures Parse(schema, input).Success? <==> forall i :: 0 <= i < |schema.fields| ==> RunField(schema.fields[i], input).Ok()
  {
    ParseObjectClean(schema.fields, input);
  }
}
