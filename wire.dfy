/**
 * The wire form of the relay's messages.
 *
 * Every envelope travels as the bytes of a JSON text. The character-level
 * JSON syntax is not modelled: a byte string is either a JSON text, given by
 * the JSON value it spells, or bytes that are not JSON at all. What is
 * modelled is how `encoding/json` fills a Go struct from such bytes, because
 * the hub routes on the field it decodes.
 */
module Wire {

  datatype Option<+T> = None | Some(value: T)

  /** A JSON value. Numbers keep their literal text; no arithmetic is done on them. */
  datatype Json =
    | JNull
    | JBool(b: bool)
    | JNumber(literal: string)
    | JString(s: string)
    | JArray(items: seq<Json>)
    | JObject(members: seq<Member>)

  /** One `"key": value` pair of a JSON object, in the order written. */
  datatype Member = Member(key: string, value: Json)

  /** The payload of one message or frame: a JSON text, or bytes that do not parse. */
  datatype Bytes = Text(doc: Json) | Malformed

  /** What one blocking read of the transport returns. */
  datatype ReadResult<F> = Frame(data: F) | ReadError

  /** The index of the first read error, or the number of reads if none failed. */
  function FirstError<F>(results: seq<ReadResult<F>>): (n: nat)
    ensures n <= |results|
    ensures forall k :: 0 <= k < n ==> results[k].Frame?
    ensures n < |results| ==> results[n].ReadError?
    decreases |results|
  {
    if results == [] || results[0].ReadError? then 0 else 1 + FirstError(results[1..])
  }

  /** ASCII lower-casing, the part of Unicode case folding that matters for the field names used here. */
  function Lower(ch: char): char
  {
    if 'A' <= ch <= 'Z' then (ch as int + 32) as char else ch
  }

  /** `encoding/json` matches an object key to a struct field's tag ignoring case. */
  predicate KeyMatches(key: string, name: string)
  {
    |key| == |name| && forall i :: 0 <= i < |key| ==> Lower(key[i]) == Lower(name[i])
  }

  /** No member of `ms` can set the field called `name`. */
  predicate NoMatch(ms: seq<Member>, name: string)
  {
    forall i :: 0 <= i < |ms| ==> !KeyMatches(ms[i].key, name)
  }

  /**
   * The members a struct is decoded from. A byte string that is not JSON, or a
   * JSON text whose top level is not an object, leaves every field at its zero
   * value, exactly as if the object had no members.
   */
  function Members(b: Bytes): seq<Member>
  {
    if b.Text? && b.doc.JObject? then b.doc.members else []
  }

  /**
   * The value `encoding/json` leaves in a string field: members are applied in
   * order, a string value overwrites the field, `null` and values of other
   * types leave it as it was, so the last string-valued matching member wins.
   */
  function StringField(ms: seq<Member>, name: string): (v: string)
    ensures v == "" || exists i :: 0 <= i < |ms| && KeyMatches(ms[i].key, name) && ms[i].value == JString(v)
    decreases |ms|
  {
    if ms == [] then ""
    else
      var last := ms[|ms| - 1];
      if KeyMatches(last.key, name) && last.value.JString? then last.value.s
      else StringField(ms[..|ms| - 1], name)
  }

  /**
   * The value `encoding/json` leaves in a field of type `*map[string]interface{}`:
   * an object sets it, `null` resets it to nil, values of other types are skipped.
   */
  function ObjectField(ms: seq<Member>, name: string): (v: Option<seq<Member>>)
    ensures v.Some? ==> exists i :: 0 <= i < |ms| && KeyMatches(ms[i].key, name) && ms[i].value == JObject(v.value)
    decreases |ms|
  {
    if ms == [] then None
    else
      var last := ms[|ms| - 1];
      if KeyMatches(last.key, name) && last.value.JObject? then Some(last.value.members)
      else if KeyMatches(last.key, name) && last.value.JNull? then None
      else ObjectField(ms[..|ms| - 1], name)
  }

  /** The room an envelope is addressed to: its `roomID` field once decoded. */
  function RoomOf(b: Bytes): string
  {
    StringField(Members(b), "roomID")
  }

  /** A string field marshalled with `omitempty`: the empty string writes no member. */
  function StringMember(key: string, value: string): seq<Member>
  {
    if value == "" then [] else [Member(key, JString(value))]
  }

  /** A pointer field marshalled with `omitempty`: nil writes no member. */
  function ObjectMember(key: string, value: Option<seq<Member>>): seq<Member>
  {
    match value
    case None => []
    case Some(ms) => [Member(key, JObject(ms))]
  }

  /** The members of several parts, one part after the other. */
  function Flatten(ps: seq<seq<Member>>): seq<Member>
    decreases |ps|
  {
    if ps == [] then [] else ps[0] + Flatten(ps[1..])
  }

  /** Every member of part `j` is written under the key `tags[j]`. */
  predicate Tagged(ps: seq<seq<Member>>, tags: seq<string>)
  {
    |ps| == |tags| && forall j, k :: 0 <= j < |ps| && 0 <= k < |ps[j]| ==> ps[j][k].key == tags[j]
  }

  /** No tag can be mistaken for another one, even ignoring case. */
  predicate Apart(tags: seq<string>)
  {
    forall i, j :: 0 <= i < |tags| && 0 <= j < |tags| && i != j ==> !KeyMatches(tags[i], tags[j])
  }

  /**
   * The tags of both envelope structs, `sender`, `roomID`, the frame's own
   * field, `server_ip` and `sender_ip`, cannot be mistaken for one another,
   * even ignoring case.
   */
  lemma EnvelopeTagsApart(frameTag: string)
    requires frameTag == "payload" || frameTag == "content"
    ensures Apart(["sender", "roomID", frameTag, "server_ip", "sender_ip"])
  {
    var tags := ["sender", "roomID", frameTag, "server_ip", "sender_ip"];
    forall i, j | 0 <= i < |tags| && 0 <= j < |tags| && i != j
      ensures !KeyMatches(tags[i], tags[j])
    {
      if i + j == 1 {
        assert Lower(tags[i][0]) != Lower(tags[j][0]);
      } else if i + j == 7 {
        assert Lower(tags[i][3]) != Lower(tags[j][3]);
      }
    }
  }

  lemma NoMatchConcat(a: seq<Member>, b: seq<Member>, name: string)
    requires NoMatch(a, name) && NoMatch(b, name)
    ensures NoMatch(a + b, name)
  {
    forall i | 0 <= i < |a + b|
      ensures !KeyMatches((a + b)[i].key, name)
    {
      if i < |a| {
        assert (a + b)[i] == a[i];
      } else {
        assert (a + b)[i] == b[i - |a|];
      }
    }
  }

  lemma {:induction false} StringFieldNone(ms: seq<Member>, name: string)
    requires NoMatch(ms, name)
    ensures StringField(ms, name) == ""
    decreases |ms|
  {
    if ms != [] {
      StringFieldNone(ms[..|ms| - 1], name);
    }
  }

  lemma {:induction false} StringFieldSuffix(a: seq<Member>, b: seq<Member>, name: string)
    requires NoMatch(b, name)
    ensures StringField(a + b, name) == StringField(a, name)
    decreases |b|
  {
    if b != [] {
      var ab := a + b;
      assert ab[..|ab| - 1] == a + b[..|b| - 1];
      StringFieldSuffix(a, b[..|b| - 1], name);
    } else {
      assert a + b == a;
    }
  }

  lemma {:induction false} ObjectFieldNone(ms: seq<Member>, name: string)
    requires NoMatch(ms, name)
    ensures ObjectField(ms, name) == None
    decreases |ms|
  {
    if ms != [] {
      ObjectFieldNone(ms[..|ms| - 1], name);
    }
  }

  lemma {:induction false} ObjectFieldSuffix(a: seq<Member>, b: seq<Member>, name: string)
    requires NoMatch(b, name)
    ensures ObjectField(a + b, name) == ObjectField(a, name)
    decreases |b|
  {
    if b != [] {
      var ab := a + b;
      assert ab[..|ab| - 1] == a + b[..|b| - 1];
      ObjectFieldSuffix(a, b[..|b| - 1], name);
    } else {
      assert a + b == a;
    }
  }

  lemma {:induction false} StringFieldPrefix(a: seq<Member>, b: seq<Member>, name: string)
    requires NoMatch(a, name)
    ensures StringField(a + b, name) == StringField(b, name)
    decreases |b|
  {
    if b == [] {
      assert a + b == a;
      StringFieldNone(a, name);
    } else {
      var ab := a + b;
      assert ab[|ab| - 1] == b[|b| - 1];
      assert ab[..|ab| - 1] == a + b[..|b| - 1];
      StringFieldPrefix(a, b[..|b| - 1], name);
    }
  }

  lemma {:induction false} ObjectFieldPrefix(a: seq<Member>, b: seq<Member>, name: string)
    requires NoMatch(a, name)
    ensures ObjectField(a + b, name) == ObjectField(b, name)
    decreases |b|
  {
    if b == [] {
      assert a + b == a;
      ObjectFieldNone(a, name);
    } else {
      var ab := a + b;
      assert ab[|ab| - 1] == b[|b| - 1];
      assert ab[..|ab| - 1] == a + b[..|b| - 1];
      ObjectFieldPrefix(a, b[..|b| - 1], name);
    }
  }

  lemma {:induction false} FlattenSplit(ps: seq<seq<Member>>, i: nat)
    requires i < |ps|
    ensures Flatten(ps) == Flatten(ps[..i]) + ps[i] + Flatten(ps[i + 1..])
    decreases i
  {
    if i == 0 {
      assert ps[..0] == [];
      assert Flatten(ps[..0]) == [];
    } else {
      FlattenSplit(ps[1..], i - 1);
      assert ps[1..][..i - 1] == ps[..i][1..];
      assert ps[1..][i - 1] == ps[i];
      assert ps[1..][i..] == ps[i + 1..];
      assert Flatten(ps[..i]) == ps[0] + Flatten(ps[..i][1..]);
    }
  }

  lemma {:induction false} NoMatchFlatten(ps: seq<seq<Member>>, name: string)
    requires forall j :: 0 <= j < |ps| ==> NoMatch(ps[j], name)
    ensures NoMatch(Flatten(ps), name)
    decreases |ps|
  {
    if ps != [] {
      NoMatchFlatten(ps[1..], name);
      NoMatchConcat(ps[0], Flatten(ps[1..]), name);
    }
  }

  /**
   * A struct decoded from parts written under tags that cannot be confused
   * reads each field from its own part alone, wherever that part sits.
   */
  lemma FieldOfPart(ps: seq<seq<Member>>, tags: seq<string>, i: nat)
    requires Tagged(ps, tags) && Apart(tags) && i < |ps|
    ensures StringField(Flatten(ps), tags[i]) == StringField(ps[i], tags[i])
    ensures ObjectField(Flatten(ps), tags[i]) == ObjectField(ps[i], tags[i])
  {
    var name := tags[i];
    var a, b := ps[..i], ps[i + 1..];
    forall j | 0 <= j < |a| ensures NoMatch(a[j], name)
    {
      assert a[j] == ps[j];
    }
    forall j | 0 <= j < |b| ensures NoMatch(b[j], name)
    {
      assert b[j] == ps[i + 1 + j];
    }
    NoMatchFlatten(a, name);
    NoMatchFlatten(b, name);
    FlattenSplit(ps, i);
    StringFieldSuffix(Flatten(a) + ps[i], Flatten(b), name);
    StringFieldPrefix(Flatten(a), ps[i], name);
    ObjectFieldSuffix(Flatten(a) + ps[i], Flatten(b), name);
    ObjectFieldPrefix(Flatten(a), ps[i], name);
  }

  /** A field written with `omitempty` decodes back to the value written. */
  lemma StringMemberRoundTrip(key: string, value: string)
    ensures StringField(StringMember(key, value), key) == value
  {
    assert KeyMatches(key, key);
  }

  lemma ObjectMemberRoundTrip(key: string, value: Option<seq<Member>>)
    ensures ObjectField(ObjectMember(key, value), key) == value
  {
    assert KeyMatches(key, key);
  }
}
