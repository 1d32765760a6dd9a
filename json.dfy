/**
 * A JSON document model and a compact serializer for it, standing in for
 * `JSON.stringify`. The parser is the serializer's partner: the round-trip
 * lemmas prove that serialization loses nothing, so two different documents
 * never produce the same file content.
 */
module Json {
  import opened Wrappers

  /** JSON values as the generator emits them. Object members keep their order. */
  datatype Json =
    | JNull
    | JBool(b: bool)
    | JString(s: string)
    | JArray(items: seq<Json>)
    | JObject(members: seq<(string, Json)>)

  /** Escapes the two characters that would end or alter a string literal. */
  function Escape(s: string): (r: string)
    ensures |r| >= |s|
  {
    if s == [] then []
    else (if s[0] == '"' || s[0] == '\\' then ['\\', s[0]] else [s[0]]) + Escape(s[1..])
  }

  function Quote(s: string): string
  {
    "\"" + Escape(s) + "\""
  }

  /** Compact JSON text of a value (no insignificant whitespace). */
  function Serialize(j: Json): (r: string)
    ensures |r| > 0 && r[0] in "ntf\"[{"
    decreases j
  {
    match j
    case JNull => "null"
    case JBool(b) => if b then "true" else "false"
    case JString(s) => Quote(s)
    case JArray(items) => "[" + SerializeItems(items) + "]"
    case JObject(members) => "{" + SerializeMembers(members) + "}"
  }

  /** Array elements separated by commas. */
  function SerializeItems(items: seq<Json>): (r: string)
    ensures items != [] ==> |r| > 0 && r[0] in "ntf\"[{"
    decreases items
  {
    if items == [] then ""
    else if |items| == 1 then Serialize(items[0])
    else Serialize(items[0]) + "," + SerializeItems(items[1..])
  }

  /** Object members `"key":value` separated by commas. */
  function SerializeMembers(members: seq<(string, Json)>): (r: string)
    ensures members != [] ==> |r| > 0 && r[0] == '"'
    decreases members
  {
    if members == [] then ""
    else
      var (k, v) := members[0];
      assert v < members[0];
      var m := Quote(k) + ":" + Serialize(v);
      if |members| == 1 then m else m + "," + SerializeMembers(members[1..])
  }

  /** Reads the body of a string literal up to its closing quote; returns the text and what follows. */
  function ParseString(s: string): (r: Option<(string, string)>)
    ensures r.Some? ==> |r.value.1| < |s|
  {
    if s == [] then None
    else if s[0] == '"' then Some(("", s[1..]))
    else if s[0] == '\\' then
      if |s| < 2 || (s[1] != '"' && s[1] != '\\') then None
      else match ParseString(s[2..])
        case None => None
        case Some((t, rest)) => Some(([s[1]] + t, rest))
    else match ParseString(s[1..])
      case None => None
      case Some((t, rest)) => Some(([s[0]] + t, rest))
  }

  /** Parses one value at the start of `s`; returns it and the unread rest. */
  function ParseValue(s: string): (r: Option<(Json, string)>)
    ensures r.Some? ==> |r.value.1| < |s|
    decreases |s|, 0
  {
    if s == [] then None
    else if s[0] == 'n' then
      if |s| >= 4 && s[..4] == "null" then Some((JNull, s[4..])) else None
    else if s[0] == 't' then
      if |s| >= 4 && s[..4] == "true" then Some((JBool(true), s[4..])) else None
    else if s[0] == 'f' then
      if |s| >= 5 && s[..5] == "false" then Some((JBool(false), s[5..])) else None
    else if s[0] == '"' then
      match ParseString(s[1..])
      case None => None
      case Some((t, rest)) => Some((JString(t), rest))
    else if s[0] == '[' then
      if |s| >= 2 && s[1] == ']' then Some((JArray([]), s[2..]))
      else match ParseItems(s[1..])
        case None => None
        case Some((items, rest)) => Some((JArray(items), rest))
    else if s[0] == '{' then
      if |s| >= 2 && s[1] == '}' then Some((JObject([]), s[2..]))
      else match ParseMembers(s[1..])
        case None => None
        case Some((members, rest)) => Some((JObject(members), rest))
    else None
  }

  /** Parses `value (, value)* ]`. */
  function ParseItems(s: string): (r: Option<(seq<Json>, string)>)
    ensures r.Some? ==> |r.value.1| < |s|
    decreases |s|, 1
  {
    match ParseValue(s)
    case None => None
    case Some((v, rest)) =>
      if rest == [] then None
      else if rest[0] == ']' then Some(([v], rest[1..]))
      else if rest[0] == ',' then
        match ParseItems(rest[1..])
        case None => None
        case Some((vs, rest')) => Some(([v] + vs, rest'))
      else None
  }

  /** Parses `"key":value (, "key":value)* }`. */
  function ParseMembers(s: string): (r: Option<(seq<(string, Json)>, string)>)
    ensures r.Some? ==> |r.value.1| < |s|
    decreases |s|, 1
  {
    if s == [] || s[0] != '"' then None
    else match ParseString(s[1..])
      case None => None
      case Some((k, rest)) =>
        if rest == [] || rest[0] != ':' then None
        else match ParseValue(rest[1..])
          case None => None
          case Some((v, rest2)) =>
            if rest2 == [] then None
            else if rest2[0] == '}' then Some(([(k, v)], rest2[1..]))
            else if rest2[0] == ',' then
              match ParseMembers(rest2[1..])
              case None => None
              case Some((ms, rest3)) => Some(([(k, v)] + ms, rest3))
            else None
  }

  /** A whole document: one value and nothing after it. */
  function Parse(text: string): Option<Json>
  {
    match ParseValue(text)
    case Some((j, rest)) => if rest == [] then Some(j) else None
    case None => None
  }

  lemma {:induction false} ParseStringRoundTrip(t: string, rest: string)
    ensures ParseString(Escape(t) + "\"" + rest) == Some((t, rest))
  {
    var s := Escape(t) + "\"" + rest;
    if t == [] {
      assert s == "\"" + rest;
    } else {
      ParseStringRoundTrip(t[1..], rest);
      if t[0] == '"' || t[0] == '\\' {
        assert s == ['\\', t[0]] + (Escape(t[1..]) + "\"" + rest);
        assert s[2..] == Escape(t[1..]) + "\"" + rest;
      } else {
        assert s == [t[0]] + (Escape(t[1..]) + "\"" + rest);
        assert s[1..] == Escape(t[1..]) + "\"" + rest;
      }
      assert [t[0]] + t[1..] == t;
    }
  }

  /** Parsing the serialization of any value gives back that value, whatever follows it. */
  lemma {:induction false} ParseValueRoundTrip(j: Json, rest: string)
    ensures ParseValue(Serialize(j) + rest) == Some((j, rest))
    decreases j, 1
  {
    match j
    case JNull => LiteralRoundTrip(j, rest);
    case JBool(_) => LiteralRoundTrip(j, rest);
    case JString(t) =>
      var s := Serialize(j) + rest;
      assert s[1..] == Escape(t) + "\"" + rest;
      ParseStringRoundTrip(t, rest);
    case JArray(items) => ArrayRoundTrip(j, rest);
    case JObject(members) => ObjectRoundTrip(j, rest);
  }

  lemma LiteralRoundTrip(j: Json, rest: string)
    requires j.JNull? || j.JBool?
    ensures ParseValue(Serialize(j) + rest) == Some((j, rest))
  {
    var s := Serialize(j) + rest;
    if j.JNull? {
      assert s[..4] == "null" && s[4..] == rest;
    } else if j.b {
      assert s[..4] == "true" && s[4..] == rest;
    } else {
      assert s[..5] == "false" && s[5..] == rest;
    }
  }

  lemma {:induction false} ArrayRoundTrip(j: Json, rest: string)
    requires j.JArray?
    ensures ParseValue(Serialize(j) + rest) == Some((j, rest))
    decreases j, 0
  {
    var body := SerializeItems(j.items);
    Bracketed("[", body, "]", rest);
    if j.items == [] {
      assert body == [];
    } else {
      ParseItemsRoundTrip(j.items, rest);
    }
  }

  lemma {:induction false} ObjectRoundTrip(j: Json, rest: string)
    requires j.JObject?
    ensures ParseValue(Serialize(j) + rest) == Some((j, rest))
    decreases j, 0
  {
    var body := SerializeMembers(j.members);
    Bracketed("{", body, "}", rest);
    if j.members == [] {
      assert body == [];
    } else {
      ParseMembersRoundTrip(j.members, rest);
    }
  }

  /** A text between an opening and a closing character, then `rest`: what follows the opening one. */
  lemma Bracketed(open: string, body: string, close: string, rest: string)
    requires |open| == 1 && |close| == 1
    ensures (open + body + close + rest)[1..] == body + close + rest
    ensures body == [] ==> (open + body + close + rest)[1] == close[0] && (open + body + close + rest)[2..] == rest
    ensures body != [] ==> (open + body + close + rest)[1] == body[0]
  {
  }

  lemma {:induction false} ParseItemsRoundTrip(items: seq<Json>, rest: string)
    requires items != []
    ensures ParseItems(SerializeItems(items) + "]" + rest) == Some((items, rest))
    decreases items
  {
    var v := items[0];
    if |items| == 1 {
      var after := "]" + rest;
      ItemsTextLast(v, rest);
      ParseValueRoundTrip(v, after);
      ParseItemsUnfold(Serialize(v) + after, v, after);
      DropFirst("]", rest);
      assert [v] == items;
    } else {
      var more := SerializeItems(items[1..]) + "]" + rest;
      var after := "," + more;
      ItemsTextMore(items, rest);
      ParseValueRoundTrip(v, after);
      ParseItemsUnfold(Serialize(v) + after, v, after);
      DropFirst(",", more);
      ParseItemsRoundTrip(items[1..], rest);
      assert [v] + items[1..] == items;
    }
  }

  lemma ItemsTextLast(v: Json, rest: string)
    ensures SerializeItems([v]) + "]" + rest == Serialize(v) + ("]" + rest)
  {
  }

  lemma ItemsTextMore(items: seq<Json>, rest: string)
    requires |items| > 1
    ensures SerializeItems(items) + "]" + rest
         == Serialize(items[0]) + ("," + (SerializeItems(items[1..]) + "]" + rest))
  {
    Regroup(Serialize(items[0]), ",", SerializeItems(items[1..]), "]", rest);
  }

  lemma Regroup(a: string, sep: string, b: string, close: string, rest: string)
    ensures a + sep + b + close + rest == a + (sep + (b + close + rest))
  {
  }

  /** One step of `ParseItems` once the first value has been read. */
  lemma ParseItemsUnfold(s: string, v: Json, after: string)
    requires ParseValue(s) == Some((v, after))
    requires after != [] && (after[0] == ']' || after[0] == ',')
    ensures ParseItems(s)
         == if after[0] == ']' then Some(([v], after[1..]))
            else match ParseItems(after[1..])
              case None => None
              case Some((vs, rest')) => Some(([v] + vs, rest'))
  {
  }

  lemma {:induction false} ParseMembersRoundTrip(members: seq<(string, Json)>, rest: string)
    requires members != []
    ensures ParseMembers(SerializeMembers(members) + "}" + rest) == Some((members, rest))
    decreases members, 1
  {
    var (k, v) := members[0];
    if |members| == 1 {
      assert [(k, v)] == members;
      LastMemberRoundTrip(k, v, rest);
    } else {
      ParseMembersRoundTrip(members[1..], rest);
      assert [(k, v)] + members[1..] == members;
      NextMemberRoundTrip(k, v, members[1..], rest);
    }
  }

  /** The last member, followed by the closing brace. */
  lemma LastMemberRoundTrip(k: string, v: Json, rest: string)
    ensures ParseMembers(SerializeMembers([(k, v)]) + "}" + rest) == Some(([(k, v)], rest))
    decreases [(k, v)], 0
  {
    assert v < (k, v) && (k, v) in [(k, v)];
    var after := "}" + rest;
    MembersTextLast(k, v, rest);
    ParseValueRoundTrip(v, after);
    MemberRoundTrip(k, v, Serialize(v), after);
    DropFirst("}", rest);
  }

  /** A member in front of members that already read back. */
  lemma NextMemberRoundTrip(k: string, v: Json, others: seq<(string, Json)>, rest: string)
    requires others != []
    requires ParseMembers(SerializeMembers(others) + "}" + rest) == Some((others, rest))
    ensures ParseMembers(SerializeMembers([(k, v)] + others) + "}" + rest) == Some(([(k, v)] + others, rest))
    decreases [(k, v)] + others, 0
  {
    var members := [(k, v)] + others;
    assert members[0] == (k, v) && members[1..] == others;
    assert v < (k, v) && (k, v) in members;
    var more := SerializeMembers(others) + "}" + rest;
    var after := "," + more;
    MembersTextMore(members, rest);
    ParseValueRoundTrip(v, after);
    MemberRoundTrip(k, v, Serialize(v), after);
    DropFirst(",", more);
  }

  lemma MembersTextLast(k: string, v: Json, rest: string)
    ensures SerializeMembers([(k, v)]) + "}" + rest == Quote(k) + ":" + Serialize(v) + ("}" + rest)
  {
  }

  lemma MembersTextMore(members: seq<(string, Json)>, rest: string)
    requires |members| > 1
    ensures SerializeMembers(members) + "}" + rest
         == Quote(members[0].0) + ":" + Serialize(members[0].1) + ("," + (SerializeMembers(members[1..]) + "}" + rest))
  {
    var (k, v) := members[0];
    assert v < members[0];
    Regroup(Quote(k) + ":" + Serialize(v), ",", SerializeMembers(members[1..]), "}", rest);
  }

  /** One member, whose value reads as `x`, followed by `after` parses as that member, then continues at `after`. */
  lemma MemberRoundTrip(k: string, v: Json, x: string, after: string)
    requires ParseValue(x + after) == Some((v, after))
    requires after != [] && (after[0] == '}' || after[0] == ',')
    ensures ParseMembers(Quote(k) + ":" + x + after)
         == if after[0] == '}' then Some(([(k, v)], after[1..]))
            else match ParseMembers(after[1..])
              case None => None
              case Some((ms, rest3)) => Some(([(k, v)] + ms, rest3))
  {
    var e := Escape(k);
    var tail := ":" + (x + after);
    var s := "\"" + (e + "\"" + tail);
    MemberText(k, x, after);
    DropFirst("\"", e + "\"" + tail);
    ParseStringRoundTrip(k, tail);
    DropFirst(":", x + after);
    ParseMembersUnfold(s, k, tail, v, after);
  }

  lemma MemberText(k: string, x: string, after: string)
    ensures Quote(k) + ":" + x + after == "\"" + (Escape(k) + "\"" + (":" + (x + after)))
  {
  }

  lemma DropFirst(c: string, r: string)
    requires |c| == 1
    ensures (c + r)[1..] == r
  {
  }

  /** One step of `ParseMembers` once the key and the value have been read. */
  lemma ParseMembersUnfold(s: string, k: string, tail: string, v: Json, after: string)
    requires s != [] && s[0] == '"' && ParseString(s[1..]) == Some((k, tail))
    requires tail != [] && tail[0] == ':' && ParseValue(tail[1..]) == Some((v, after))
    requires after != [] && (after[0] == '}' || after[0] == ',')
    ensures ParseMembers(s)
         == if after[0] == '}' then Some(([(k, v)], after[1..]))
            else match ParseMembers(after[1..])
              case None => None
              case Some((ms, rest3)) => Some(([(k, v)] + ms, rest3))
  {
  }

  /** The document round trip: `Parse` inverts `Serialize`. */
  lemma ParseSerialize(j: Json)
    ensures Parse(Serialize(j)) == Some(j)
  {
    ParseValueRoundTrip(j, "");
    assert Serialize(j) + "" == Serialize(j);
  }

  /** Hence the serializer is injective: distinct documents have distinct texts. */
  lemma SerializeInjective(a: Json, b: Json)
    ensures Serialize(a) == Serialize(b) ==> a == b
  {
    ParseSerialize(a);
    ParseSerialize(b);
  }

  /** A JSON file as the generator writes it: the document followed by one line break. */
  function ParseFile(text: string): Option<Json>
  {
    if text != [] && text[|text| - 1] == '\n' then Parse(text[..|text| - 1]) else None
  }

  lemma ParseFileRoundTrip(j: Json)
    ensures ParseFile(Serialize(j) + "\n") == Some(j)
  {
    var text := Serialize(j) + "\n";
    assert text[..|text| - 1] == Serialize(j);
    ParseSerialize(j);
  }
}
