/** A codec that meets `Codec.Lawful`, so that assuming a lawful JSON
    library is consistent. Its text form is a prefix code, not JSON syntax:
    one tag character, counts written in unary and closed by ';', then the
    parts. */
module LawfulCodec {
  import opened Wrappers
  import opened Json

  /** `k` in unary: `k` ones and a closing ';'. */
  function EncodeCount(k: nat): string {
    if k == 0 then ";" else "1" + EncodeCount(k - 1)
  }

  function DecodeCount(s: string): (r: Option<(nat, string)>)
    ensures r.Some? ==> |r.value.1| < |s|
  {
    if s == [] then None
    else if s[0] == ';' then Some((0, s[1..]))
    else if s[0] == '1' then
      match DecodeCount(s[1..])
      case None => None
      case Some((k, rest)) => Some((k + 1, rest))
    else None
  }

  lemma {:induction false} DecodeEncodeCount(k: nat, rest: string)
    ensures DecodeCount(EncodeCount(k) + rest) == Some((k, rest))
  {
    if k == 0 {
      assert (EncodeCount(k) + rest)[1..] == rest;
    } else {
      DecodeEncodeCount(k - 1, rest);
      assert (EncodeCount(k) + rest)[1..] == EncodeCount(k - 1) + rest;
    }
  }

  function Encode(v: Json): string
    decreases v, 1
  {
    match v
    case JNull => "null"
    case JBool(b) => if b then "t" else "f"
    case JNumber(n) => if n >= 0 then "+" + EncodeCount(n) else "-" + EncodeCount(-n)
    case JString(s) => "s" + EncodeCount(|s|) + s
    case JArray(items) => "a" + EncodeCount(|items|) + EncodeItems(items)
    case JObject(members) => "o" + EncodeCount(|members|) + EncodeMembers(members)
  }

  function EncodeItems(items: seq<Json>): string
    decreases items, 0
  {
    if items == [] then "" else Encode(items[0]) + EncodeItems(items[1..])
  }

  function EncodeMembers(members: seq<(string, Json)>): string
    decreases members, 0
  {
    if members == [] then "" else EncodeMember(members[0]) + EncodeMembers(members[1..])
  }

  function EncodeMember(member: (string, Json)): string
    decreases member, 2
  {
    EncodeCount(|member.0|) + member.0 + Encode(member.1)
  }

  /** A value at the front of `s`, and what follows it. */
  function Parse(s: string): (r: Option<(Json, string)>)
    ensures r.Some? ==> |r.value.1| < |s|
    decreases |s|, 0
  {
    if s == [] then None
    else if s[0] == 'n' then
      if |s| >= 4 && s[1..4] == "ull" then Some((JNull, s[4..])) else None
    else if s[0] == 't' then Some((JBool(true), s[1..]))
    else if s[0] == 'f' then Some((JBool(false), s[1..]))
    else
      match DecodeCount(s[1..])
      case None => None
      case Some((k, rest)) => ParseCounted(s[0], k, rest)
  }

  /** The value whose tag is `tag` and whose count is `k`, at the front of `rest`. */
  function ParseCounted(tag: char, k: nat, rest: string): (r: Option<(Json, string)>)
    ensures r.Some? ==> |r.value.1| <= |rest|
    decreases |rest|, 2
  {
    if tag == '+' then Some((JNumber(k), rest))
    else if tag == '-' then Some((JNumber(0 - k), rest))
    else if tag == 's' then
      if k <= |rest| then Some((JString(rest[..k]), rest[k..])) else None
    else if tag == 'a' then
      match ParseItems(k, rest)
      case None => None
      case Some((items, after)) => Some((JArray(items), after))
    else if tag == 'o' then
      match ParseMembers(k, rest)
      case None => None
      case Some((members, after)) => Some((JObject(members), after))
    else None
  }

  function ParseItems(n: nat, s: string): (r: Option<(seq<Json>, string)>)
    ensures r.Some? ==> |r.value.1| <= |s| && |r.value.0| == n
    decreases |s|, 1, n
  {
    if n == 0 then Some(([], s))
    else
      match Parse(s)
      case None => None
      case Some((v, rest)) =>
        match ParseItems(n - 1, rest)
        case None => None
        case Some((vs, after)) => Some(([v] + vs, after))
  }

  function ParseMembers(n: nat, s: string): (r: Option<(seq<(string, Json)>, string)>)
    ensures r.Some? ==> |r.value.1| <= |s| && |r.value.0| == n
    decreases |s|, 1, n
  {
    if n == 0 then Some(([], s))
    else
      match ParseMember(s)
      case None => None
      case Some((m, rest)) =>
        match ParseMembers(n - 1, rest)
        case None => None
        case Some((ms, after)) => Some(([m] + ms, after))
  }

  /** One key, as a counted text, and its value. */
  function ParseMember(s: string): (r: Option<((string, Json), string)>)
    ensures r.Some? ==> |r.value.1| < |s|
    decreases |s|, 0
  {
    match DecodeCount(s)
    case None => None
    case Some((k, rest)) =>
      if k > |rest| then None
      else
        match Parse(rest[k..])
        case None => None
        case Some((v, after)) => Some(((rest[..k], v), after))
  }

  /** A tag and a count at the front of a text are read back. */
  lemma ParseTagged(tag: char, k: nat, body: string)
    requires tag != 'n' && tag != 't' && tag != 'f'
    ensures Parse([tag] + EncodeCount(k) + body) == ParseCounted(tag, k, body)
  {
    var s := [tag] + EncodeCount(k) + body;
    DecodeEncodeCount(k, body);
    assert s[1..] == EncodeCount(k) + body;
  }

  /** Parsing reads back, from the front of any text, the value encoded there. */
  lemma {:induction false} ParseEncode(v: Json, rest: string)
    ensures Parse(Encode(v) + rest) == Some((v, rest))
    decreases v, 1
  {
    var s := Encode(v) + rest;
    match v
    case JNull =>
      assert s[1..4] == "ull" && s[4..] == rest;
    case JBool(b) =>
      assert s[1..] == rest;
    case JNumber(n) =>
      var k: nat := if n >= 0 then n else -n;
      var tag := if n >= 0 then '+' else '-';
      assert s == [tag] + EncodeCount(k) + rest;
      ParseTagged(tag, k, rest);
    case JString(t) =>
      assert s == ['s'] + EncodeCount(|t|) + (t + rest);
      ParseTagged('s', |t|, t + rest);
      assert (t + rest)[..|t|] == t && (t + rest)[|t|..] == rest;
    case JArray(items) =>
      assert s == ['a'] + EncodeCount(|items|) + (EncodeItems(items) + rest);
      ParseTagged('a', |items|, EncodeItems(items) + rest);
      ParseEncodeItems(items, rest);
    case JObject(members) =>
      assert s == ['o'] + EncodeCount(|members|) + (EncodeMembers(members) + rest);
      ParseTagged('o', |members|, EncodeMembers(members) + rest);
      ParseEncodeMembers(members, rest);
  }

  lemma {:induction false} ParseEncodeItems(items: seq<Json>, rest: string)
    ensures ParseItems(|items|, EncodeItems(items) + rest) == Some((items, rest))
    decreases items, 0
  {
    if items != [] {
      var tail := EncodeItems(items[1..]) + rest;
      assert EncodeItems(items) + rest == Encode(items[0]) + tail;
      ParseEncode(items[0], tail);
      ParseEncodeItems(items[1..], rest);
      assert |items[1..]| == |items| - 1;
      assert [items[0]] + items[1..] == items;
    } else {
      assert EncodeItems(items) + rest == rest;
    }
  }

  lemma {:induction false} ParseEncodeMembers(members: seq<(string, Json)>, rest: string)
    ensures ParseMembers(|members|, EncodeMembers(members) + rest) == Some((members, rest))
    decreases members, 0
  {
    if members != [] {
      var tail := EncodeMembers(members[1..]) + rest;
      assert EncodeMembers(members) + rest == EncodeMember(members[0]) + tail;
      ParseEncodeMember(members[0], tail);
      ParseEncodeMembers(members[1..], rest);
      assert |members[1..]| == |members| - 1;
      assert [members[0]] + members[1..] == members;
    } else {
      assert EncodeMembers(members) + rest == rest;
    }
  }

  /** One key and value read back, as ParseMembers reads them. */
  lemma {:induction false} ParseEncodeMember(member: (string, Json), rest: string)
    ensures ParseMember(EncodeMember(member) + rest) == Some((member, rest))
    decreases member, 2
  {
    var (key, value) := member;
    var afterCount := key + (Encode(value) + rest);
    assert EncodeMember(member) + rest == EncodeCount(|key|) + afterCount;
    DecodeEncodeCount(|key|, afterCount);
    assert afterCount[..|key|] == key;
    assert afterCount[|key|..] == Encode(value) + rest;
    ParseEncode(value, rest);
  }

  /** The whole text is one value. */
  function Decode(s: string): Option<Json> {
    match Parse(s)
    case None => None
    case Some((v, rest)) => if rest == [] then Some(v) else None
  }

  /** The codec built from `Encode` and `Decode` is lawful. */
  lemma Witness()
    ensures Codec(Encode, Decode).Lawful()
  {
    forall v ensures Decode(Encode(v)) == Some(v) {
      ParseEncode(v, "");
      assert Encode(v) + "" == Encode(v);
    }
  }
}
