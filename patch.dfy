/**
 * JSON Patch as the store uses it. `applyPatch` of fast-json-patch is a
 * foreign call: the store receives it as a function with three outcomes.
 * The store ignores the library's return value and goes on with the object
 * it passed in, so `Applied` carries the value that object holds after the
 * call: operations on the root path leave it as it was.
 * What the model does say about the library is the `test` operation of
 * section 4.6 of RFC 6902 on a path of one reference token (section 4 of
 * RFC 6901).
 */
module Patch {
  import opened Json

  /** The patched object, a failed `test` (TEST_OPERATION_FAILED), or any other error. */
  datatype Outcome = Applied(document: Value) | TestFailed | OtherError

  /** A reference token that needs no `~0`/`~1` escaping. */
  predicate PlainToken(t: string)
  {
    forall i :: 0 <= i < |t| ==> t[i] != '/' && t[i] != '~'
  }

  /** `{"op": "test", "path": "/<member>", "value": <value>}`. */
  function TestMember(member: string, value: Value): Value
  {
    JObj(map["op" := JStr("test"), "path" := JStr(['/'] + member), "value" := value])
  }

  /**
   * The operation is a `test` of one member of the root object, and the
   * document does not hold the expected value there (a missing member fails
   * the test as well).
   */
  predicate FailingMemberTest(doc: Value, op: Value)
  {
    && op.JObj?
    && "op" in op.fields && op.fields["op"] == JStr("test")
    && "path" in op.fields && op.fields["path"].JStr?
    && "value" in op.fields
    && var path := op.fields["path"].s;
       && 1 <= |path| && path[0] == '/' && PlainToken(path[1..])
       && doc.JObj?
       && (path[1..] !in doc.fields || doc.fields[path[1..]] != op.fields["value"])
  }

  /** The operation is exactly the test `TestMember(member, value)` for some value. */
  predicate IsMemberTest(op: Value, member: string)
  {
    op.JObj? && "value" in op.fields && op == TestMember(member, op.fields["value"])
  }

  /**
   * What section 4.6 and section 5 of RFC 6902 ask of an implementation, for
   * a patch that opens with a failing test of `member`: the whole patch fails
   * as a failed test. It is stated per member because fast-json-patch refuses
   * some paths (those through `__proto__`) with an error of another kind
   * before it runs any operation.
   */
  ghost predicate HonoursLeadingTest(apply: (Value, seq<Value>) -> Outcome, member: string)
  {
    forall doc, ops :: |ops| > 0 && IsMemberTest(ops[0], member) && FailingMemberTest(doc, ops[0]) ==>
      apply(doc, ops) == TestFailed
  }

  /** A test of a member fails exactly when the member is missing or holds another value. */
  lemma TestMemberFailsIff(doc: Value, member: string, value: Value)
    requires PlainToken(member) && doc.JObj?
    ensures FailingMemberTest(doc, TestMember(member, value)) <==>
      member !in doc.fields || doc.fields[member] != value
  {
    var op := TestMember(member, value);
    assert op.fields["path"].s[1..] == member;
  }
}
