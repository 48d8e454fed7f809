/**
 * The deck content schema and validator of server/src/ts/deck.ts.
 *
 * The io-ts codecs become decoding functions from JSON values to typed
 * values (None: the codec reports an error), the encoders beside them give
 * each typed value back as JSON, and `validate` is the decoding of an
 * editable deck followed by the authoring rule that every call holds a slot.
 */
module Decks {
  import opened Wrappers
  import opened Json

  datatype Style = Em | Strong

  datatype Transform = UpperCase | Capitalize

  /**
   * One token of a call, as the `Part` union decodes it: a plain string, an
   * object accepted by the `Styled` codec, or an object accepted by the `Slot`
   * codec. Both object codecs hand on every member of the object they
   * accept, so `textMember` records whether a slot object still has a `text`
   * member (one that is not a string, or Styled would have accepted it), and
   * `shadowed` whether the object has a `hasOwnProperty` member of its own.
   * A styled part is built anew by the intersection codec, and
   * `protoHides` records whether the prototype its `__proto__` member
   * installs hides the `hasOwnProperty` method (see ProtoHidesMethod). A
   * prototype is not part of the object's JSON, so it is lost when the part
   * is stored (SerialisePart).
   */
  datatype Part =
    | Plain(text: string)
    | Styled(text: string, style: Option<Style>, shadowed: bool, protoHides: bool)
    | Slot(transform: Option<Transform>, style: Option<Style>, textMember: bool, shadowed: bool)

  type Line = seq<Part>

  type Call = seq<Line>

  datatype EditableDeck = EditableDeck(
    name: string,
    calls: seq<Call>,
    responses: seq<string>,
    language: Option<string>)

  /** An editable deck with the `author` display name and `version` the store adds. */
  datatype Deck = Deck(content: EditableDeck, author: string, version: int)

  datatype Summary = Summary(
    name: string,
    author: string,
    language: string,
    calls: int,
    responses: int,
    version: int)

  datatype SummaryAndCode = SummaryAndCode(code: string, summary: Summary)

  /**
   * Why `validate` throws: the codec rejected the value, a call has no slot,
   * or the slot scan called `hasOwnProperty` on a part that hides the method,
   * so that the call threw a TypeError.
   */
  datatype Rejection = Malformed | CallWithoutSlot | HasOwnPropertyNotCallable

  // ---------------------------------------------------------------------------
  // Slots

  /** `part.hasOwnProperty("text")` on a decoded part that is not a string. */
  predicate HasTextMember(p: Part)
  {
    match p
    case Plain(_) => false
    case Styled(_, _, _, _) => true
    case Slot(_, _, t, _) => t
  }

  /** The test inside `hasSlot`: not a string, and no `text` member. */
  predicate IsSlot(p: Part)
  {
    !p.Plain? && !HasTextMember(p)
  }

  /** The inner loop of `hasSlot`, over one line. */
  function LineHasSlot(line: Line): (r: bool)
    ensures r <==> exists k :: 0 <= k < |line| && IsSlot(line[k])
  {
    if line == [] then false
    else IsSlot(line[0]) || LineHasSlot(line[1..])
  }

  /** `hasSlot`: some part on some line of the call is a slot. */
  function HasSlot(call: Call): (r: bool)
    ensures r <==> exists i, k :: 0 <= i < |call| && 0 <= k < |call[i]| && IsSlot(call[i][k])
  {
    if call == [] then false
    else
      var first := LineHasSlot(call[0]);
      var rest := HasSlot(call[1..]);
      assert rest ==> exists i, k :: 1 <= i < |call| && 0 <= k < |call[i]| && IsSlot(call[i][k]) by {
        if rest {
          var i, k :| 0 <= i < |call[1..]| && 0 <= k < |call[1..][i]| && IsSlot(call[1..][i][k]);
          assert IsSlot(call[i + 1][k]);
        }
      }
      first || rest
  }

  /**
   * `part.hasOwnProperty("text")` throws a TypeError: the part's own
   * `hasOwnProperty` member hides the method, and no JSON value is callable.
   */
  predicate Throws(p: Part)
  {
    match p
    case Plain(_) => false
    case Styled(_, _, shadowed, protoHides) => shadowed || protoHides
    case Slot(_, _, _, shadowed) => shadowed
  }

  /** A part at which the scan of `hasSlot` ends: it throws, or it is a slot. */
  predicate Stops(p: Part)
  {
    Throws(p) || IsSlot(p)
  }

  /** How the scan of `hasSlot` ends: it returns true, returns false, or throws. */
  datatype Scan = Found | NotFound | Threw

  /** The scan over parts in order: the first part at which it stops decides. */
  function ScanParts(parts: seq<Part>): (r: Scan)
    ensures r == NotFound <==> forall k :: 0 <= k < |parts| ==> !Stops(parts[k])
    ensures r != NotFound ==>
      exists k :: 0 <= k < |parts| && (forall j :: 0 <= j < k ==> !Stops(parts[j])) &&
        Stops(parts[k]) && r == (if Throws(parts[k]) then Threw else Found)
  {
    if parts == [] then NotFound
    else if Throws(parts[0]) then Threw
    else if IsSlot(parts[0]) then Found
    else
      var r := ScanParts(parts[1..]);
      assert r != NotFound ==>
        exists k :: 0 <= k < |parts| && (forall j :: 0 <= j < k ==> !Stops(parts[j])) &&
          Stops(parts[k]) && r == (if Throws(parts[k]) then Threw else Found) by {
        if r != NotFound {
          var k :| 0 <= k < |parts[1..]| && (forall j :: 0 <= j < k ==> !Stops(parts[1..][j])) &&
            Stops(parts[1..][k]) && r == (if Throws(parts[1..][k]) then Threw else Found);
          assert parts[k + 1] == parts[1..][k];
        }
      }
      assert r == NotFound ==> forall k :: 0 <= k < |parts| ==> !Stops(parts[k]) by {
        if r == NotFound {
          forall k | 0 <= k < |parts| ensures !Stops(parts[k]) {
            if k > 0 {
              assert parts[k] == parts[1..][k - 1];
            }
          }
        }
      }
      r
  }

  /** The parts of a call in the order the two loops of `hasSlot` visit them. */
  function Flatten(call: Call): (parts: seq<Part>)
    ensures forall p :: p in parts <==> exists i, k :: 0 <= i < |call| && 0 <= k < |call[i]| && call[i][k] == p
  {
    if call == [] then []
    else
      var rest := Flatten(call[1..]);
      assert forall p :: p in rest <==> exists i, k :: 1 <= i < |call| && 0 <= k < |call[i]| && call[i][k] == p by {
        forall p ensures p in rest <==> exists i, k :: 1 <= i < |call| && 0 <= k < |call[i]| && call[i][k] == p {
          if p in rest {
            var i, k :| 0 <= i < |call[1..]| && 0 <= k < |call[1..][i]| && call[1..][i][k] == p;
            assert call[i + 1][k] == p;
          }
          if exists i, k :: 1 <= i < |call| && 0 <= k < |call[i]| && call[i][k] == p {
            var i, k :| 1 <= i < |call| && 0 <= k < |call[i]| && call[i][k] == p;
            assert call[1..][i - 1][k] == p;
          }
        }
      }
      call[0] + rest
  }

  /** The parts of two lists of lines are visited first those of the first, then those of the second. */
  lemma {:induction false} FlattenAppend(a: Call, b: Call)
    ensures Flatten(a + b) == Flatten(a) + Flatten(b)
  {
    if a == [] {
      assert a + b == b;
    } else {
      assert (a + b)[0] == a[0];
      assert (a + b)[1..] == a[1..] + b;
      FlattenAppend(a[1..], b);
    }
  }

  /** Scanning two runs of parts in turn: the second is reached only if the first does not stop. */
  lemma {:induction false} ScanPartsAppend(a: seq<Part>, b: seq<Part>)
    ensures ScanParts(a + b) == if ScanParts(a) != NotFound then ScanParts(a) else ScanParts(b)
  {
    if a == [] {
      assert a + b == b;
    } else {
      assert (a + b)[0] == a[0];
      assert (a + b)[1..] == a[1..] + b;
      ScanPartsAppend(a[1..], b);
    }
  }

  /**
   * `hasSlot(call)`: the scan of the call's parts in line order. It finds
   * nothing exactly when no part on any line stops it, and it throws only at
   * a part that hides `hasOwnProperty`.
   */
  function ScanCall(call: Call): (r: Scan)
    ensures r == NotFound <==> forall i, k :: 0 <= i < |call| && 0 <= k < |call[i]| ==> !Stops(call[i][k])
    ensures r == Threw ==> exists i, k :: 0 <= i < |call| && 0 <= k < |call[i]| && Throws(call[i][k])
  {
    var parts := Flatten(call);
    assert (forall i, k :: 0 <= i < |call| && 0 <= k < |call[i]| ==> !Stops(call[i][k])) ==>
      forall k :: 0 <= k < |parts| ==> !Stops(parts[k]) by {
      forall k | 0 <= k < |parts| && forall i, j :: 0 <= i < |call| && 0 <= j < |call[i]| ==> !Stops(call[i][j])
        ensures !Stops(parts[k]) {
        assert parts[k] in parts;
      }
    }
    assert (forall k :: 0 <= k < |parts| ==> !Stops(parts[k])) ==>
      forall i, k :: 0 <= i < |call| && 0 <= k < |call[i]| ==> !Stops(call[i][k]) by {
      forall i, k | 0 <= i < |call| && 0 <= k < |call[i]| && forall j :: 0 <= j < |parts| ==> !Stops(parts[j])
        ensures !Stops(call[i][k]) {
        assert call[i][k] in parts;
      }
    }
    var r := ScanParts(parts);
    assert r == Threw ==> exists i, k :: 0 <= i < |call| && 0 <= k < |call[i]| && Throws(call[i][k]) by {
      if r == Threw {
        var k :| 0 <= k < |parts| && Stops(parts[k]) && Throws(parts[k]);
        assert parts[k] in parts;
      }
    }
    r
  }

  /**
   * The two loops of `hasSlot`: the inner loop over the first line returns at
   * the first part that stops it; only if none does is the next line scanned.
   */
  lemma {:induction false} ScanCallByLines(call: Call)
    ensures call == [] ==> ScanCall(call) == NotFound
    ensures call != [] ==>
      ScanCall(call) == if ScanParts(call[0]) != NotFound then ScanParts(call[0]) else ScanCall(call[1..])
  {
    if call != [] {
      assert Flatten(call) == call[0] + Flatten(call[1..]);
      ScanPartsAppend(call[0], Flatten(call[1..]));
    }
  }

  /** A call the scan accepts has a slot. */
  lemma FoundHasSlot(call: Call)
    requires ScanCall(call) == Found
    ensures HasSlot(call)
  {
    var parts := Flatten(call);
    var k :| 0 <= k < |parts| && Stops(parts[k]) && !Throws(parts[k]);
    assert parts[k] in parts;
    var i, j :| 0 <= i < |call| && 0 <= j < |call[i]| && call[i][j] == parts[k];
    assert IsSlot(call[i][j]);
  }

  /**
   * Where no part has its own `hasOwnProperty`, the scan never throws, and it
   * finds a slot exactly when some part is a slot.
   */
  lemma ScanWithoutShadowing(call: Call)
    requires forall i, k :: 0 <= i < |call| && 0 <= k < |call[i]| ==> !Throws(call[i][k])
    ensures ScanCall(call) != Threw
    ensures ScanCall(call) == Found <==> HasSlot(call)
  {
    var parts := Flatten(call);
    assert forall k :: 0 <= k < |parts| ==> !Throws(parts[k]) by {
      forall k | 0 <= k < |parts| ensures !Throws(parts[k]) {
        assert parts[k] in parts;
      }
    }
    if HasSlot(call) {
      var i, j :| 0 <= i < |call| && 0 <= j < |call[i]| && IsSlot(call[i][j]);
      assert call[i][j] in parts;
    }
  }

  /** The rejection a scan that found no slot leads to. */
  function RejectionOf(s: Scan): Rejection
  {
    if s == Threw then HasOwnPropertyNotCallable else CallWithoutSlot
  }

  /** The loop of `validate` over the outcomes of the calls' scans: the first that is not Found throws. */
  function CheckScans(scans: seq<Scan>): (r: Option<Rejection>)
    ensures r.None? <==> forall i :: 0 <= i < |scans| ==> scans[i] == Found
    ensures r.Some? ==>
      exists i :: 0 <= i < |scans| && (forall j :: 0 <= j < i ==> scans[j] == Found) &&
        scans[i] != Found && r.value == RejectionOf(scans[i])
  {
    if scans == [] then None
    else if scans[0] != Found then Some(RejectionOf(scans[0]))
    else
      var r := CheckScans(scans[1..]);
      assert r.Some? ==>
        exists i :: 0 <= i < |scans| && (forall j :: 0 <= j < i ==> scans[j] == Found) &&
          scans[i] != Found && r.value == RejectionOf(scans[i]) by {
        if r.Some? {
          var i :| 0 <= i < |scans[1..]| && (forall j :: 0 <= j < i ==> scans[1..][j] == Found) &&
            scans[1..][i] != Found && r.value == RejectionOf(scans[1..][i]);
          assert scans[i + 1] == scans[1..][i];
        }
      }
      r
  }

  /** The loop of `validate` over the calls: the first call the scan does not accept throws. */
  function CheckCalls(calls: seq<Call>): (r: Option<Rejection>)
    ensures r.None? <==> forall i :: 0 <= i < |calls| ==> ScanCall(calls[i]) == Found
    ensures r.Some? ==>
      exists i :: 0 <= i < |calls| && (forall j :: 0 <= j < i ==> ScanCall(calls[j]) == Found) &&
        ScanCall(calls[i]) != Found && r.value == RejectionOf(ScanCall(calls[i]))
    ensures r.Some? ==> r.value != Malformed
  {
    CheckScans(MapAll(calls, ScanCall))
  }

  /** A deck `validate` accepts: every call's scan finds a slot. */
  predicate Slotted(d: EditableDeck)
  {
    forall i :: 0 <= i < |d.calls| ==> ScanCall(d.calls[i]) == Found
  }

  /** The authoring rule: in a deck `validate` accepts, every call has a slot. */
  lemma SlottedCallsHaveSlots(d: EditableDeck)
    requires Slotted(d)
    ensures forall i :: 0 <= i < |d.calls| ==> HasSlot(d.calls[i])
  {
    forall i | 0 <= i < |d.calls| ensures HasSlot(d.calls[i]) {
      FoundHasSlot(d.calls[i]);
    }
  }

  // ---------------------------------------------------------------------------
  // Decoding (the io-ts codecs)

  /** `Style`, a `t.keyof`: exactly the strings "Em" and "Strong". */
  function DecodeStyle(v: Value): (r: Option<Style>)
    ensures r.Some? <==> v == JStr("Em") || v == JStr("Strong")
    ensures r.Some? ==> EncodeStyle(r.value) == v
  {
    match v
    case JStr(s) => if s == "Em" then Some(Em) else if s == "Strong" then Some(Strong) else None
    case _ => None
  }

  /** `Transform`, a `t.keyof`: exactly the strings "UpperCase" and "Capitalize". */
  function DecodeTransform(v: Value): (r: Option<Transform>)
    ensures r.Some? <==> v == JStr("UpperCase") || v == JStr("Capitalize")
    ensures r.Some? ==> EncodeTransform(r.value) == v
  {
    match v
    case JStr(s) =>
      if s == "UpperCase" then Some(UpperCase) else if s == "Capitalize" then Some(Capitalize) else None
    case _ => None
  }

  /** `t.string`. */
  function DecodeString(v: Value): (r: Option<string>)
    ensures r.Some? <==> v.JStr?
    ensures r.Some? ==> v == JStr(r.value)
  {
    if v.JStr? then Some(v.s) else None
  }

  /**
   * One member of a `t.partial` codec: an absent member decodes to None, a
   * present one must decode. The outer None rejects the enclosing object.
   */
  function DecodeMember<T>(m: map<string, Value>, key: string, decode: Value -> Option<T>): (r: Option<Option<T>>)
    ensures r.None? <==> key in m && decode(m[key]).None?
    ensures r == Some(None) <==> key !in m
    ensures r.Some? && r.value.Some? ==> key in m && decode(m[key]) == r.value
  {
    if key !in m then Some(None)
    else
      match decode(m[key])
      case None => None
      case Some(x) => Some(Some(x))
  }

  /**
   * The `Styled` codec is an intersection: io-ts merges the results of its
   * two halves into a new object by assignment, so a `__proto__` member
   * becomes that object's prototype. A `null` prototype, or one with its own
   * `hasOwnProperty` member, hides the method just as an own member does.
   * The `Slot` codec hands the object on as it is, and there `__proto__` is
   * an ordinary member.
   */
  predicate ProtoHidesMethod(m: map<string, Value>)
  {
    "__proto__" in m && (m["__proto__"].JNull? || (m["__proto__"].JObj? && "hasOwnProperty" in m["__proto__"].fields))
  }

  /**
   * `Part = t.union([t.string, Styled, Slot])`, tried in that order. `Styled`
   * needs an object with a string `text` and an acceptable `style`; `Slot`
   * takes any object whose `transform` and `style`, where present, are
   * acceptable.
   */
  function DecodePart(v: Value): (r: Option<Part>)
    ensures r.Some? ==> v.JStr? || v.JObj?
    ensures v.JStr? ==> r == Some(Plain(v.s))
    ensures r.Some? && v.JObj? ==> (r.value.Styled? <==> "text" in v.fields && v.fields["text"].JStr?)
    ensures r.Some? ==> (IsSlot(r.value) <==> v.JObj? && "text" !in v.fields)
    ensures r.Some? ==>
      (Throws(r.value) <==> v.JObj? && ("hasOwnProperty" in v.fields || (r.value.Styled? && ProtoHidesMethod(v.fields))))
    ensures r.Some? && r.value.Styled? ==>
      && v.JObj? && JStr(r.value.text) == v.fields["text"]
      && DecodeMember(v.fields, "style", DecodeStyle) == Some(r.value.style)
      && (r.value.shadowed <==> "hasOwnProperty" in v.fields)
      && (r.value.protoHides <==> ProtoHidesMethod(v.fields))
    ensures r.Some? && r.value.Slot? ==>
      && DecodeMember(v.fields, "style", DecodeStyle) == Some(r.value.style)
      && DecodeMember(v.fields, "transform", DecodeTransform) == Some(r.value.transform)
      && (r.value.shadowed <==> "hasOwnProperty" in v.fields)
    ensures v.JObj? ==>
      (r.None? <==>
        || DecodeMember(v.fields, "style", DecodeStyle).None?
        || (!("text" in v.fields && v.fields["text"].JStr?) && DecodeMember(v.fields, "transform", DecodeTransform).None?))
  {
    match v
    case JStr(s) => Some(Plain(s))
    case JObj(m) =>
      var style := DecodeMember(m, "style", DecodeStyle);
      var transform := DecodeMember(m, "transform", DecodeTransform);
      if "text" in m && m["text"].JStr? && style.Some? then
        Some(Styled(m["text"].s, style.value, "hasOwnProperty" in m, ProtoHidesMethod(m)))
      else if transform.Some? && style.Some? then
        Some(Slot(transform.value, style.value, "text" in m, "hasOwnProperty" in m))
      else
        None
    case _ => None
  }

  /** `t.array(item)` over the items of an array: every item must decode. */
  function DecodeAll<T>(items: seq<Value>, decode: Value -> Option<T>): (r: Option<seq<T>>)
    ensures r.Some? <==> forall i :: 0 <= i < |items| ==> decode(items[i]).Some?
    ensures r.Some? ==> |r.value| == |items|
    ensures r.Some? ==> forall i :: 0 <= i < |items| ==> decode(items[i]) == Some(r.value[i])
  {
    if items == [] then Some([])
    else
      match decode(items[0])
      case None => None
      case Some(x) =>
        match DecodeAll(items[1..], decode)
        case None =>
          assert exists i :: 1 <= i < |items| && decode(items[i]).None? by {
            var j :| 0 <= j < |items[1..]| && decode(items[1..][j]).None?;
            assert decode(items[j + 1]).None?;
          }
          None
        case Some(xs) =>
          assert forall i :: 1 <= i < |items| ==> decode(items[i]) == Some(xs[i - 1]) by {
            forall i | 1 <= i < |items| ensures decode(items[i]) == Some(xs[i - 1]) {
              assert items[i] == items[1..][i - 1];
            }
          }
          Some([x] + xs)
  }

  /** `t.array(item)`: an array whose every item decodes. */
  function DecodeArray<T>(v: Value, decode: Value -> Option<T>): (r: Option<seq<T>>)
    ensures r.Some? ==> v.JArr? && r == DecodeAll(v.items, decode)
    ensures v.JArr? ==> r == DecodeAll(v.items, decode)
  {
    match v
    case JArr(items) => DecodeAll(items, decode)
    case _ => None
  }

  function DecodeLine(v: Value): Option<Line>
  {
    DecodeArray(v, DecodePart)
  }

  function DecodeCall(v: Value): Option<Call>
  {
    DecodeArray(v, DecodeLine)
  }

  function DecodeCalls(v: Value): Option<seq<Call>>
  {
    DecodeArray(v, DecodeCall)
  }

  function DecodeResponses(v: Value): Option<seq<string>>
  {
    DecodeArray(v, DecodeString)
  }

  /**
   * `EditableDeck`: an object with a string `name`, `calls` as an array of
   * arrays of arrays of parts, `responses` as an array of strings, and, if
   * present, a string `language`. Other members are not looked at.
   */
  function DecodeEditable(v: Value): (r: Option<EditableDeck>)
    ensures r.Some? <==>
      && v.JObj?
      && "name" in v.fields && v.fields["name"].JStr?
      && "calls" in v.fields && DecodeCalls(v.fields["calls"]).Some?
      && "responses" in v.fields && DecodeResponses(v.fields["responses"]).Some?
      && ("language" in v.fields ==> v.fields["language"].JStr?)
    ensures r.Some? ==>
      && JStr(r.value.name) == v.fields["name"]
      && DecodeCalls(v.fields["calls"]) == Some(r.value.calls)
      && DecodeResponses(v.fields["responses"]) == Some(r.value.responses)
      && (r.value.language.Some? <==> "language" in v.fields)
      && (r.value.language.Some? ==> v.fields["language"] == JStr(r.value.language.value))
  {
    match v
    case JObj(m) =>
      if "name" in m && m["name"].JStr? && "calls" in m && "responses" in m then
        match (DecodeCalls(m["calls"]), DecodeResponses(m["responses"]), DecodeMember(m, "language", DecodeString))
        case (Some(calls), Some(responses), Some(language)) =>
          Some(EditableDeck(m["name"].s, calls, responses, language))
        case _ => None
      else
        None
    case _ => None
  }

  /**
   * `validate`: decode the candidate as an EditableDeck, then reject it if any
   * call lacks a slot; otherwise return the decoded deck.
   */
  function Validate(v: Value): (r: Result<EditableDeck, Rejection>)
    ensures r == Err(Malformed) <==> DecodeEditable(v).None?
    ensures r.Ok? <==> DecodeEditable(v).Some? && Slotted(DecodeEditable(v).value)
    ensures r.Ok? ==> DecodeEditable(v) == Some(r.value)
    ensures r.Err? && r.error != Malformed ==>
      DecodeEditable(v).Some? && CheckCalls(DecodeEditable(v).value.calls) == Some(r.error)
  {
    match DecodeEditable(v)
    case None => Err(Malformed)
    case Some(d) =>
      match CheckCalls(d.calls)
      case None => Ok(d)
      case Some(e) => Err(e)
  }

  // ---------------------------------------------------------------------------
  // Encoding: each typed value as the JSON it decodes from

  function EncodeStyle(s: Style): Value
  {
    match s
    case Em => JStr("Em")
    case Strong => JStr("Strong")
  }

  function EncodeTransform(t: Transform): Value
  {
    match t
    case UpperCase => JStr("UpperCase")
    case Capitalize => JStr("Capitalize")
  }

  function EncodeString(s: string): Value
  {
    JStr(s)
  }

  /** The member `key` if the option holds a value, nothing otherwise. */
  function OptionalMember<T>(key: string, o: Option<T>, encode: T -> Value): map<string, Value>
  {
    if o.Some? then map[key := encode(o.value)] else map[]
  }

  /** The `hasOwnProperty` member of an object part that has one of its own. */
  function OwnProbe(shadowed: bool): map<string, Value>
  {
    if shadowed then map["hasOwnProperty" := JNull] else map[]
  }

  /**
   * A part as `JSON.stringify` writes it: own members only, so a styled
   * part's prototype is not written. A slot that kept a `text` member is
   * written with `text: null`.
   */
  function EncodePart(p: Part): Value
  {
    match p
    case Plain(s) => JStr(s)
    case Styled(s, style, shadowed, _) =>
      JObj(map["text" := JStr(s)] + OptionalMember("style", style, EncodeStyle) + OwnProbe(shadowed))
    case Slot(transform, style, textMember, shadowed) =>
      JObj(OptionalMember("transform", transform, EncodeTransform)
           + OptionalMember("style", style, EncodeStyle)
           + (if textMember then map["text" := JNull] else map[])
           + OwnProbe(shadowed))
  }

  /** `f` applied to each element, in order: how arrays are written and stored. */
  function MapAll<T, U>(xs: seq<T>, f: T -> U): (r: seq<U>)
    ensures |r| == |xs| && forall i :: 0 <= i < |xs| ==> r[i] == f(xs[i])
  {
    seq(|xs|, i requires 0 <= i < |xs| => f(xs[i]))
  }

  function EncodeLine(line: Line): Value
  {
    JArr(MapAll(line, EncodePart))
  }

  function EncodeCall(call: Call): Value
  {
    JArr(MapAll(call, EncodeLine))
  }

  function EncodeCalls(calls: seq<Call>): Value
  {
    JArr(MapAll(calls, EncodeCall))
  }

  function EncodeResponses(responses: seq<string>): Value
  {
    JArr(MapAll(responses, EncodeString))
  }

  function EditableMembers(d: EditableDeck): map<string, Value>
  {
    map["name" := JStr(d.name), "calls" := EncodeCalls(d.calls), "responses" := EncodeResponses(d.responses)]
    + OptionalMember("language", d.language, EncodeString)
  }

  function EncodeEditable(d: EditableDeck): Value
  {
    JObj(EditableMembers(d))
  }

  // ---------------------------------------------------------------------------
  // Storage: what `JSON.stringify` keeps of a validated deck

  /** A part as it is stored: a styled part loses the prototype its `__proto__` installed. */
  function SerialisePart(p: Part): Part
  {
    if p.Styled? then p.(protoHides := false) else p
  }

  function SerialiseLine(line: Line): Line
  {
    MapAll(line, SerialisePart)
  }

  function SerialiseCall(call: Call): Call
  {
    MapAll(call, SerialiseLine)
  }

  /** A deck as it is written to a row and read back. */
  function SerialiseDeck(d: EditableDeck): EditableDeck
  {
    d.(calls := MapAll(d.calls, SerialiseCall))
  }

  /** A deck storage leaves as it is: no styled part has a prototype that hides `hasOwnProperty`. */
  predicate Serialised(d: EditableDeck)
  {
    forall i, j, k :: 0 <= i < |d.calls| && 0 <= j < |d.calls[i]| && 0 <= k < |d.calls[i][j]| ==>
      !(d.calls[i][j][k].Styled? && d.calls[i][j][k].protoHides)
  }

  /** A stored deck has nothing left to drop, and a deck with nothing to drop is stored as it is. */
  lemma SerialiseDeckStores(d: EditableDeck)
    ensures Serialised(SerialiseDeck(d))
    ensures Serialised(d) ==> SerialiseDeck(d) == d
  {
    var calls := MapAll(d.calls, SerialiseCall);
    if Serialised(d) {
      forall i | 0 <= i < |calls| ensures calls[i] == d.calls[i] {
        forall j | 0 <= j < |calls[i]| ensures calls[i][j] == d.calls[i][j] {
          assert forall k :: 0 <= k < |calls[i][j]| ==> calls[i][j][k] == d.calls[i][j][k];
        }
      }
    }
  }

  /** Storing the lines of a call stores their parts, in the same order. */
  lemma {:induction false} FlattenSerialise(call: Call)
    ensures Flatten(SerialiseCall(call)) == MapAll(Flatten(call), SerialisePart)
  {
    if call != [] {
      var c := SerialiseCall(call);
      assert c[0] == SerialiseLine(call[0]);
      assert c[1..] == SerialiseCall(call[1..]);
      FlattenSerialise(call[1..]);
      assert Flatten(call) == call[0] + Flatten(call[1..]);
      assert MapAll(Flatten(call), SerialisePart)
        == MapAll(call[0], SerialisePart) + MapAll(Flatten(call[1..]), SerialisePart);
    }
  }

  /** A scan that finds a slot still finds it once prototypes are dropped: dropping one never adds a stop. */
  lemma {:induction false} SerialisedScanFinds(parts: seq<Part>)
    requires ScanParts(parts) == Found
    ensures ScanParts(MapAll(parts, SerialisePart)) == Found
  {
    var q := MapAll(parts, SerialisePart);
    assert q[0] == SerialisePart(parts[0]);
    if !IsSlot(parts[0]) {
      assert q[1..] == MapAll(parts[1..], SerialisePart);
      SerialisedScanFinds(parts[1..]);
    }
  }

  /** A deck `validate` accepts still passes the slot check once stored. */
  lemma SerialisePreservesSlotted(d: EditableDeck)
    requires Slotted(d)
    ensures Slotted(SerialiseDeck(d))
  {
    var stored := SerialiseDeck(d);
    forall i | 0 <= i < |stored.calls| ensures ScanCall(stored.calls[i]) == Found {
      FlattenSerialise(d.calls[i]);
      SerialisedScanFinds(Flatten(d.calls[i]));
    }
  }

  // ---------------------------------------------------------------------------
  // Round trips

  /**
   * A styled part is decoded back from its own JSON by the Styled codec,
   * without the prototype its JSON does not carry.
   */
  lemma StyledRoundTrip(s: string, style: Option<Style>, shadowed: bool, protoHides: bool)
    ensures DecodePart(EncodePart(Styled(s, style, shadowed, protoHides))) == Some(Styled(s, style, shadowed, false))
  {
    var m := EncodePart(Styled(s, style, shadowed, protoHides)).fields;
    assert "text" in m && m["text"] == JStr(s);
    assert shadowed <==> "hasOwnProperty" in m;
    assert "__proto__" !in m;
    if style.Some? {
      assert m["style"] == EncodeStyle(style.value);
    } else {
      assert "style" !in m;
    }
  }

  /** An object without a string `text` whose `style` and `transform` decode is a slot. */
  lemma SlotObjectDecodes(m: map<string, Value>, transform: Option<Transform>, style: Option<Style>)
    requires !("text" in m && m["text"].JStr?)
    requires DecodeMember(m, "style", DecodeStyle) == Some(style)
    requires DecodeMember(m, "transform", DecodeTransform) == Some(transform)
    ensures DecodePart(JObj(m)) == Some(Slot(transform, style, "text" in m, "hasOwnProperty" in m))
  {
  }

  /** A slot is decoded back from its own JSON by the Slot codec. */
  lemma SlotRoundTrip(transform: Option<Transform>, style: Option<Style>, textMember: bool, shadowed: bool)
    ensures DecodePart(EncodePart(Slot(transform, style, textMember, shadowed)))
      == Some(Slot(transform, style, textMember, shadowed))
  {
    var m := EncodePart(Slot(transform, style, textMember, shadowed)).fields;
    SlotMembers(transform, style, textMember, shadowed);
    SlotObjectDecodes(m, transform, style);
  }

  /** The members a slot is written with, as the Slot codec reads them back. */
  lemma SlotMembers(transform: Option<Transform>, style: Option<Style>, textMember: bool, shadowed: bool)
    ensures var m := EncodePart(Slot(transform, style, textMember, shadowed)).fields;
      && (textMember <==> "text" in m) && ("text" in m ==> m["text"] == JNull)
      && (shadowed <==> "hasOwnProperty" in m)
      && DecodeMember(m, "style", DecodeStyle) == Some(style)
      && DecodeMember(m, "transform", DecodeTransform) == Some(transform)
  {
    var m := EncodePart(Slot(transform, style, textMember, shadowed)).fields;
    if style.Some? {
      assert m["style"] == EncodeStyle(style.value);
    } else {
      assert "style" !in m;
    }
    if transform.Some? {
      assert m["transform"] == EncodeTransform(transform.value);
    } else {
      assert "transform" !in m;
    }
  }

  /** Every part is decoded back from its own JSON by the `Part` union, as it is stored. */
  lemma {:induction false} PartRoundTrip(p: Part)
    ensures DecodePart(EncodePart(p)) == Some(SerialisePart(p))
  {
    match p
    case Plain(s) =>
    case Styled(s, style, shadowed, protoHides) => StyledRoundTrip(s, style, shadowed, protoHides);
    case Slot(transform, style, textMember, shadowed) => SlotRoundTrip(transform, style, textMember, shadowed);
  }

  /** Decoding undoes encoding item by item whenever it does so for one item, up to `stored`. */
  lemma {:induction false} AllRoundTrip<T>(xs: seq<T>, encode: T -> Value, decode: Value -> Option<T>, stored: T -> T)
    requires forall x :: decode(encode(x)) == Some(stored(x))
    ensures DecodeAll(MapAll(xs, encode), decode) == Some(MapAll(xs, stored))
  {
    var items := MapAll(xs, encode);
    assert forall i :: 0 <= i < |items| ==> decode(items[i]) == Some(stored(xs[i]));
    var r := DecodeAll(items, decode);
    assert r.Some?;
    assert r.value == MapAll(xs, stored);
  }

  lemma LineRoundTrip(line: Line)
    ensures DecodeLine(EncodeLine(line)) == Some(SerialiseLine(line))
  {
    forall p: Part ensures DecodePart(EncodePart(p)) == Some(SerialisePart(p)) {
      PartRoundTrip(p);
    }
    AllRoundTrip(line, EncodePart, DecodePart, SerialisePart);
  }

  lemma CallRoundTrip(call: Call)
    ensures DecodeCall(EncodeCall(call)) == Some(SerialiseCall(call))
  {
    forall line: Line ensures DecodeLine(EncodeLine(line)) == Some(SerialiseLine(line)) {
      LineRoundTrip(line);
    }
    AllRoundTrip(call, EncodeLine, DecodeLine, SerialiseLine);
  }

  lemma CallsRoundTrip(calls: seq<Call>)
    ensures DecodeCalls(EncodeCalls(calls)) == Some(MapAll(calls, SerialiseCall))
  {
    forall call: Call ensures DecodeCall(EncodeCall(call)) == Some(SerialiseCall(call)) {
      CallRoundTrip(call);
    }
    AllRoundTrip(calls, EncodeCall, DecodeCall, SerialiseCall);
  }

  lemma ResponsesRoundTrip(responses: seq<string>)
    ensures DecodeResponses(EncodeResponses(responses)) == Some(responses)
  {
    var same := (s: string) => s;
    AllRoundTrip(responses, EncodeString, DecodeString, same);
    assert MapAll(responses, same) == responses;
  }

  /** Every editable deck is decoded back from its own JSON, as it is stored. */
  lemma {:induction false} EditableRoundTrip(d: EditableDeck)
    ensures DecodeEditable(EncodeEditable(d)) == Some(SerialiseDeck(d))
  {
    var m := EditableMembers(d);
    CallsRoundTrip(d.calls);
    ResponsesRoundTrip(d.responses);
    assert m["name"] == JStr(d.name);
    assert m["calls"] == EncodeCalls(d.calls);
    assert m["responses"] == EncodeResponses(d.responses);
    if d.language.Some? {
      assert m["language"] == JStr(d.language.value);
    } else {
      assert "language" !in m;
    }
  }

  // ---------------------------------------------------------------------------
  // Properties of validate

  /**
   * The JSON of a deck is accepted, as the deck is stored, exactly when the
   * scan of each stored call finds a slot; otherwise `validate` throws what
   * the first stored call the scan does not accept leads to. A deck with
   * nothing for storage to drop is accepted unchanged.
   */
  lemma ValidateAcceptsExactlySlotted(d: EditableDeck)
    ensures Slotted(SerialiseDeck(d)) ==> Validate(EncodeEditable(d)) == Ok(SerialiseDeck(d))
    ensures !Slotted(SerialiseDeck(d)) ==> Validate(EncodeEditable(d)) == Err(CheckCalls(SerialiseDeck(d).calls).value)
    ensures Serialised(d) ==> (Slotted(d) <==> Validate(EncodeEditable(d)) == Ok(d))
  {
    EditableRoundTrip(d);
    SerialiseDeckStores(d);
  }

  /** Every call of a deck `validate` returns has a slot. */
  lemma ValidatedCallsHaveSlots(v: Value)
    requires Validate(v).Ok?
    ensures forall i :: 0 <= i < |Validate(v).value.calls| ==> HasSlot(Validate(v).value.calls[i])
  {
    SlottedCallsHaveSlots(Validate(v).value);
  }

  /**
   * Validating the JSON of the deck `validate` returned succeeds again, with
   * that deck as it is stored: the same deck when no styled part of it had a
   * prototype to drop.
   */
  lemma ValidateIdempotent(v: Value)
    requires Validate(v).Ok?
    ensures Validate(EncodeEditable(Validate(v).value)) == Ok(SerialiseDeck(Validate(v).value))
    ensures Serialised(Validate(v).value) ==> Validate(EncodeEditable(Validate(v).value)) == Validate(v)
  {
    SerialisePreservesSlotted(Validate(v).value);
    ValidateAcceptsExactlySlotted(Validate(v).value);
  }

  /** A deck with no calls passes the slot check. */
  lemma EmptyCallsAccepted(d: EditableDeck)
    requires d.calls == []
    ensures Slotted(d) && CheckCalls(d.calls).None?
  {
  }

  /** An array whose items decode one by one to `values` decodes to `values`. */
  lemma ItemsDecode<T>(items: seq<Value>, decode: Value -> Option<T>, values: seq<T>)
    requires |items| == |values| && forall i :: 0 <= i < |items| ==> decode(items[i]) == Some(values[i])
    ensures DecodeAll(items, decode) == Some(values)
  {
    var r := DecodeAll(items, decode);
    assert r.Some?;
    assert r.value == values;
  }

  /**
   * A part object with its own `hasOwnProperty` member, reached by the scan
   * before any slot, makes `validate` throw: here the only part of the only
   * call.
   */
  lemma HasOwnPropertyMemberRejected()
    ensures Validate(JObj(map[
      "name" := JStr("n"),
      "calls" := JArr([JArr([JArr([JObj(map["hasOwnProperty" := JNum(0)])])])]),
      "responses" := JArr([])])) == Err(HasOwnPropertyNotCallable)
  {
    var v := JObj(map[
      "name" := JStr("n"),
      "calls" := JArr([JArr([JArr([JObj(map["hasOwnProperty" := JNum(0)])])])]),
      "responses" := JArr([])]);
    var d := EditableDeck("n", [[[Slot(None, None, false, true)]]], [], None);
    assert DecodeEditable(v) == Some(d) by {
      ShadowedSlotDecodes();
      assert DecodeResponses(JArr([])) == Some([]);
    }
    FirstPartThrowsRejected(v, d);
  }

  /**
   * A deck whose first call opens with a part that hides `hasOwnProperty` is
   * rejected: the scan throws there before anything else is looked at.
   */
  lemma FirstPartThrowsRejected(v: Value, d: EditableDeck)
    requires DecodeEditable(v) == Some(d)
    requires |d.calls| > 0 && |d.calls[0]| > 0 && |d.calls[0][0]| > 0 && Throws(d.calls[0][0][0])
    ensures Validate(v) == Err(HasOwnPropertyNotCallable)
  {
    var call := d.calls[0];
    ScanCallByLines(call);
    assert ScanCall(call) == Threw;
    assert CheckCalls(d.calls) == Some(HasOwnPropertyNotCallable) by {
      assert MapAll(d.calls, ScanCall)[0] == Threw;
    }
  }

  /** `[[[{"hasOwnProperty": 0}]]]` decodes as one call holding one shadowed slot. */
  lemma ShadowedSlotDecodes()
    ensures DecodeCalls(JArr([JArr([JArr([JObj(map["hasOwnProperty" := JNum(0)])])])]))
      == Some([[[Slot(None, None, false, true)]]])
  {
    var part := JObj(map["hasOwnProperty" := JNum(0)]);
    assert DecodePart(part) == Some(Slot(None, None, false, true));
    var p := Slot(None, None, false, true);
    ItemsDecode([part], DecodePart, [p]);
    ItemsDecode([JArr([part])], DecodeLine, [[p]]);
    ItemsDecode([JArr([JArr([part])])], DecodeCall, [[[p]]]);
  }

  /**
   * A styled part whose `__proto__` is `null`, reached by the scan before
   * any slot, makes `validate` throw: the slot `{}` after it on the same line
   * is never looked at.
   */
  lemma NullProtoStyledRejected()
    ensures Validate(JObj(map[
      "name" := JStr("n"),
      "calls" := JArr([JArr([JArr([JObj(map["text" := JStr("a"), "__proto__" := JNull]), JObj(map[])])])]),
      "responses" := JArr([])])) == Err(HasOwnPropertyNotCallable)
  {
    var v := JObj(map[
      "name" := JStr("n"),
      "calls" := JArr([JArr([JArr([JObj(map["text" := JStr("a"), "__proto__" := JNull]), JObj(map[])])])]),
      "responses" := JArr([])]);
    var d := EditableDeck("n", [[[Styled("a", None, false, true), Slot(None, None, false, false)]]], [], None);
    assert DecodeEditable(v) == Some(d) by {
      NullProtoStyledDecodes();
      assert DecodeResponses(JArr([])) == Some([]);
    }
    FirstPartThrowsRejected(v, d);
  }

  /**
   * `[[[{"text": "a", "__proto__": null}, {}]]]` decodes as one call whose
   * line holds a styled part that hides `hasOwnProperty`, then a slot.
   */
  lemma NullProtoStyledDecodes()
    ensures DecodeCalls(JArr([JArr([JArr([JObj(map["text" := JStr("a"), "__proto__" := JNull]), JObj(map[])])])]))
      == Some([[[Styled("a", None, false, true), Slot(None, None, false, false)]]])
  {
    var styled := JObj(map["text" := JStr("a"), "__proto__" := JNull]);
    var slot := JObj(map[]);
    var a := Styled("a", None, false, true);
    var b := Slot(None, None, false, false);
    assert DecodePart(styled) == Some(a);
    assert DecodePart(slot) == Some(b);
    ItemsDecode([styled, slot], DecodePart, [a, b]);
    ItemsDecode([JArr([styled, slot])], DecodeLine, [[a, b]]);
    ItemsDecode([JArr([JArr([styled, slot])])], DecodeCall, [[[a, b]]]);
  }

  /**
   * A call with no lines, or only strings and objects with `text`, has no
   * slot, and its scan does not accept it.
   */
  lemma NoSlotWithoutTextlessObject(call: Call)
    requires forall i, k :: 0 <= i < |call| && 0 <= k < |call[i]| ==> call[i][k].Plain? || HasTextMember(call[i][k])
    ensures !HasSlot(call)
    ensures ScanCall(call) != Found
  {
    if ScanCall(call) == Found {
      FoundHasSlot(call);
    }
  }

  /** Any `style` other than "Em" or "Strong" makes the part fail to decode. */
  lemma BadStyleRejectsPart(m: map<string, Value>)
    requires "style" in m && m["style"] != JStr("Em") && m["style"] != JStr("Strong")
    ensures DecodePart(JObj(m)).None?
  {
  }

  /**
   * A `transform` other than "UpperCase" or "Capitalize" makes an object fail
   * to decode when it has no string `text`; with a string `text`, the Styled
   * codec accepts the object first and the transform is not looked at.
   */
  lemma BadTransformRejectsSlot(m: map<string, Value>)
    requires "transform" in m && m["transform"] != JStr("UpperCase") && m["transform"] != JStr("Capitalize")
    ensures !("text" in m && m["text"].JStr?) ==> DecodePart(JObj(m)).None?
    ensures "text" in m && m["text"].JStr? && DecodeMember(m, "style", DecodeStyle).Some? ==>
      DecodePart(JObj(m)) == Some(Styled(m["text"].s, DecodeMember(m, "style", DecodeStyle).value,
                                         "hasOwnProperty" in m, ProtoHidesMethod(m)))
  {
  }

  /** Only strings and objects are parts: null, booleans, numbers and arrays are not. */
  lemma OnlyStringsAndObjectsAreParts(v: Value)
    requires !v.JStr? && !v.JObj?
    ensures DecodePart(v).None?
  {
  }
}
