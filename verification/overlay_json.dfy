/** The overlay configuration as the JSON text stored under
    `overlay_config`. Gson writes the object's fields in declaration order,
    without whitespace, e.g.
    `{"enabled":true,"color":-16777216,"width":1400,...,"opacity":100}`,
    and reads an object back member by member onto a default-constructed
    `OverlayConfig`: a known name sets its field, an unknown one is
    skipped, a value of the wrong kind or an `Int` out of range is an
    error, and so is anything after the closing brace. */
module OverlayJson {
  import opened Wrappers
  import opened Text
  import opened KotlinInt
  import opened Settings

  datatype Field = Enabled | Color | Width | Height | PositionX | PositionY | Opacity

  function FieldName(f: Field): string {
    match f
    case Enabled => "enabled"
    case Color => "color"
    case Width => "width"
    case Height => "height"
    case PositionX => "positionX"
    case PositionY => "positionY"
    case Opacity => "opacity"
  }

  /** The field a member name binds to; `None` for a name the class lacks. */
  function FieldOf(name: string): (r: Option<Field>)
    ensures r.Some? ==> FieldName(r.value) == name
  {
    if name == "enabled" then Some(Enabled)
    else if name == "color" then Some(Color)
    else if name == "width" then Some(Width)
    else if name == "height" then Some(Height)
    else if name == "positionX" then Some(PositionX)
    else if name == "positionY" then Some(PositionY)
    else if name == "opacity" then Some(Opacity)
    else None
  }

  /** The member values this configuration uses. */
  datatype Value = BoolValue(b: bool) | NumberValue(n: int)

  datatype Member = Member(name: string, value: Value)

  // ---------------------------------------------------------------------
  // Writing

  /** The members `gson.toJson(config)` writes, in declaration order. */
  function Members(c: OverlayConfig): seq<Member> {
    [ Member(FieldName(Enabled), BoolValue(c.enabled)),
      Member(FieldName(Color), NumberValue(c.color)),
      Member(FieldName(Width), NumberValue(c.width)),
      Member(FieldName(Height), NumberValue(c.height)),
      Member(FieldName(PositionX), NumberValue(c.positionX)),
      Member(FieldName(PositionY), NumberValue(c.positionY)),
      Member(FieldName(Opacity), NumberValue(c.opacity)) ]
  }

  function ValueText(v: Value): string {
    match v
    case BoolValue(b) => if b then "true" else "false"
    case NumberValue(n) => IntToString(n)
  }

  /** `"name":value` */
  function WriteMember(m: Member): string {
    "\"" + (m.name + ("\":" + ValueText(m.value)))
  }

  /** The members separated by commas. */
  function WriteMembers(ms: seq<Member>): string
    decreases |ms|
  {
    if |ms| <= 1 then (if |ms| == 0 then "" else WriteMember(ms[0]))
    else WriteMember(ms[0]) + ("," + WriteMembers(ms[1..]))
  }

  /** `gson.toJson(config)`. */
  function Encode(c: OverlayConfig): string {
    "{" + (WriteMembers(Members(c)) + "}")
  }

  // ---------------------------------------------------------------------
  // Reading

  /** Consumes the literal `lit` at the front of `s`. */
  function Expect(lit: string, s: string): (r: Option<string>)
    ensures r.Some? <==> StartsWith(s, lit)
    ensures r.Some? ==> s == lit + r.value
  {
    if StartsWith(s, lit) then Some(s[|lit|..]) else None
  }

  /** The text up to the next `"`, and what follows that quote. */
  function ReadName(s: string): (r: Option<(string, string)>)
    ensures r.Some? ==> |r.value.1| < |s|
    decreases |s|
  {
    if |s| == 0 then None
    else if s[0] == '"' then Some(([], s[1..]))
    else
      var tail :- ReadName(s[1..]);
      Some(([s[0]] + tail.0, tail.1))
  }

  function ReadValue(s: string): (r: Option<(Value, string)>)
    ensures r.Some? ==> |r.value.1| < |s|
  {
    if StartsWith(s, "true") then Some((BoolValue(true), s[4..]))
    else if StartsWith(s, "false") then Some((BoolValue(false), s[5..]))
    else
      var n :- ReadInt(s);
      Some((NumberValue(n.0), n.1))
  }

  /** Reads `"name":value`. */
  function ReadMember(s: string): (r: Option<(Member, string)>)
    ensures r.Some? ==> |r.value.1| < |s|
  {
    var afterQuote :- Expect("\"", s);
    var name :- ReadName(afterQuote);
    var afterColon :- Expect(":", name.1);
    var value :- ReadValue(afterColon);
    Some((Member(name.0, value.0), value.1))
  }

  /** Reads `member (, member)* }` and returns the members and what follows
      the brace. */
  function ReadMembers(s: string): (r: Option<(seq<Member>, string)>)
    decreases |s|
  {
    var first :- ReadMember(s);
    ReadMoreMembers(first.0, first.1, |s|)
  }

  /** After one member: a comma and more members, or the closing brace. */
  function ReadMoreMembers(first: Member, s: string, bound: nat): (r: Option<(seq<Member>, string)>)
    requires |s| < bound
    decreases bound, 0
  {
    if StartsWith(s, ",") then
      var others :- ReadMembers(s[1..]);
      Some(([first] + others.0, others.1))
    else if StartsWith(s, "}") then Some(([first], s[1..]))
    else None
  }

  /** Reads one JSON object and requires it to span the whole text. */
  function ReadObject(json: string): (r: Option<seq<Member>>) {
    var body :- Expect("{", json);
    var members :- if StartsWith(body, "}") then Some(([], body[1..])) else ReadMembers(body);
    if members.1 == "" then Some(members.0) else None
  }

  /** Sets the field a member names; a mismatched kind or an out-of-range
      number fails, an unknown name changes nothing. */
  function SetField(c: OverlayConfig, m: Member): (r: Option<OverlayConfig>)
    ensures ValidConfig(c) && r.Some? ==> ValidConfig(r.value)
  {
    match FieldOf(m.name)
    case None => Some(c)
    case Some(Enabled) => if m.value.BoolValue? then Some(c.(enabled := m.value.b)) else None
    case Some(f) =>
      if m.value.BoolValue? || !IsInt32(m.value.n) then None
      else
        var n := m.value.n;
        Some(match f
          case Color => c.(color := n)
          case Width => c.(width := n)
          case Height => c.(height := n)
          case PositionX => c.(positionX := n)
          case PositionY => c.(positionY := n)
          case _ => c.(opacity := n))
  }

  function SetFields(c: OverlayConfig, ms: seq<Member>): (r: Option<OverlayConfig>)
    ensures ValidConfig(c) && r.Some? ==> ValidConfig(r.value)
    decreases |ms|
  {
    if |ms| == 0 then Some(c)
    else
      var next :- SetField(c, ms[0]);
      SetFields(next, ms[1..])
  }

  /** `gson.fromJson(json, OverlayConfig::class.java)`; `None` stands for
      the exception. */
  function Decode(json: string): (r: Option<OverlayConfig>)
    ensures r.Some? ==> ValidConfig(r.value)
  {
    var members :- ReadObject(json);
    SetFields(DefaultOverlay, members)
  }

  // ---------------------------------------------------------------------
  // Round trip

  predicate NoQuote(name: string) {
    forall i :: 0 <= i < |name| ==> name[i] != '"'
  }

  /** Text that may follow a value: a comma or the closing brace. */
  predicate AfterValue(rest: string) {
    |rest| > 0 && (rest[0] == ',' || rest[0] == '}')
  }

  lemma {:induction false} ReadNameRoundTrip(name: string, rest: string)
    requires NoQuote(name)
    ensures ReadName(name + ("\"" + rest)) == Some((name, rest))
    decreases |name|
  {
    if |name| > 0 {
      assert (name + ("\"" + rest))[1..] == name[1..] + ("\"" + rest);
      ReadNameRoundTrip(name[1..], rest);
      assert [name[0]] + name[1..] == name;
    } else {
      assert name + ("\"" + rest) == "\"" + rest;
    }
  }

  lemma ReadValueRoundTrip(v: Value, rest: string)
    requires AfterValue(rest)
    ensures ReadValue(ValueText(v) + rest) == Some((v, rest))
  {
    var text := ValueText(v) + rest;
    match v
    case BoolValue(b) =>
      if b {
        assert StartsWith(text, "true") && text[4..] == rest;
      } else {
        assert text[..4] != "true" by { assert text[0] == 'f'; }
        assert StartsWith(text, "false") && text[5..] == rest;
      }
    case NumberValue(n) =>
      assert text[0] == '-' || IsDigit(text[0]);
      assert !StartsWith(text, "true") && !StartsWith(text, "false");
      IntToStringRoundTrip(n, rest);
  }

  lemma MemberRoundTrip(m: Member, rest: string)
    requires NoQuote(m.name) && AfterValue(rest)
    ensures ReadMember(WriteMember(m) + rest) == Some((m, rest))
  {
    var value := ValueText(m.value) + rest;
    var afterQuote := m.name + ("\"" + (":" + value));
    assert WriteMember(m) + rest == "\"" + afterQuote;
    assert Expect("\"", WriteMember(m) + rest) == Some(afterQuote);
    ReadNameRoundTrip(m.name, ":" + value);
    assert Expect(":", ":" + value) == Some(value);
    ReadValueRoundTrip(m.value, rest);
  }

  lemma {:induction false} MembersRoundTrip(ms: seq<Member>, rest: string)
    requires |ms| > 0 && forall i :: 0 <= i < |ms| ==> NoQuote(ms[i].name)
    ensures ReadMembers(WriteMembers(ms) + ("}" + rest)) == Some((ms, rest))
    decreases |ms|
  {
    if |ms| == 1 {
      assert WriteMembers(ms) == WriteMember(ms[0]);
      LastMemberRoundTrip(ms[0], rest);
      assert [ms[0]] == ms;
    } else {
      var tail := WriteMembers(ms[1..]) + ("}" + rest);
      assert WriteMembers(ms) + ("}" + rest) == WriteMember(ms[0]) + ("," + tail);
      MembersRoundTrip(ms[1..], rest);
      MemberThenMore(ms[0], tail, (ms[1..], rest));
      assert [ms[0]] + ms[1..] == ms;
    }
  }

  /** The last member, then the closing brace. */
  lemma LastMemberRoundTrip(m: Member, rest: string)
    requires NoQuote(m.name)
    ensures ReadMembers(WriteMember(m) + ("}" + rest)) == Some(([m], rest))
  {
    var text := WriteMember(m) + ("}" + rest);
    MemberRoundTrip(m, "}" + rest);
    ReadMoreClose(m, "}" + rest, |text|);
    ReadMembersStep(text, m, "}" + rest, Some(([m], rest)));
  }

  /** A member, a comma, and a list that reads as `others`. */
  lemma MemberThenMore(m: Member, tail: string, others: (seq<Member>, string))
    requires NoQuote(m.name) && ReadMembers(tail) == Some(others)
    ensures ReadMembers(WriteMember(m) + ("," + tail)) == Some(([m] + others.0, others.1))
  {
    var more := "," + tail;
    var text := WriteMember(m) + more;
    MemberRoundTrip(m, more);
    assert more[1..] == tail;
    ReadMoreComma(m, more, |text|, others);
    ReadMembersStep(text, m, more, Some(([m] + others.0, others.1)));
  }

  /** `ReadMembers` is one member, then the rest of the list. */
  lemma ReadMembersStep(s: string, m: Member, after: string, result: Option<(seq<Member>, string)>)
    requires ReadMember(s) == Some((m, after)) && |after| < |s|
    requires ReadMoreMembers(m, after, |s|) == result
    ensures ReadMembers(s) == result
  {
  }

  /** A comma: the rest of the list follows. */
  lemma ReadMoreComma(first: Member, s: string, bound: nat, others: (seq<Member>, string))
    requires |s| < bound && |s| > 0 && s[0] == ',' && ReadMembers(s[1..]) == Some(others)
    ensures ReadMoreMembers(first, s, bound) == Some(([first] + others.0, others.1))
  {
    assert StartsWith(s, ",");
  }

  /** The closing brace ends the list. */
  lemma ReadMoreClose(first: Member, s: string, bound: nat)
    requires |s| < bound && |s| > 0 && s[0] == '}'
    ensures ReadMoreMembers(first, s, bound) == Some(([first], s[1..]))
  {
    assert !StartsWith(s, ",") && StartsWith(s, "}");
  }

  /** Applying the members of `c` to any configuration gives back `c`. */
  lemma SetAllFields(d: OverlayConfig, c: OverlayConfig)
    requires ValidConfig(c)
    ensures SetFields(d, Members(c)) == Some(c)
  {
    var ms := Members(c);
    var c4 := d.(enabled := c.enabled, color := c.color, width := c.width, height := c.height);
    assert SetFields(d, ms) == SetFields(c4, ms[4..]) by {
      var c1 := d.(enabled := c.enabled);
      var c2 := c1.(color := c.color);
      var c3 := c2.(width := c.width);
      SetFieldsStep(d, ms, c1);
      SetFieldsStep(c1, ms[1..], c2);
      SetFieldsStep(c2, ms[2..], c3);
      SetFieldsStep(c3, ms[3..], c4);
      assert ms[1..][1..] == ms[2..] && ms[2..][1..] == ms[3..] && ms[3..][1..] == ms[4..];
    }
    assert SetFields(c4, ms[4..]) == Some(c) by {
      var c5 := c4.(positionX := c.positionX);
      var c6 := c5.(positionY := c.positionY);
      SetFieldsStep(c4, ms[4..], c5);
      SetFieldsStep(c5, ms[5..], c6);
      SetFieldsStep(c6, ms[6..], c);
      assert ms[4..][1..] == ms[5..] && ms[5..][1..] == ms[6..] && ms[6..][1..] == [];
    }
  }

  /** Applying a list of members is applying the first, then the rest. */
  lemma SetFieldsStep(c: OverlayConfig, ms: seq<Member>, next: OverlayConfig)
    requires |ms| > 0 && SetField(c, ms[0]) == Some(next)
    ensures SetFields(c, ms) == SetFields(next, ms[1..])
  {
  }

  /** What `saveOverlayConfig` writes, `getOverlayConfig` reads back. */
  lemma DecodeEncode(c: OverlayConfig)
    requires ValidConfig(c)
    ensures Decode(Encode(c)) == Some(c)
  {
    ReadObjectEncode(c);
    SetAllFields(DefaultOverlay, c);
  }

  /** The written object reads back as the members that were written. */
  lemma ReadObjectEncode(c: OverlayConfig)
    ensures ReadObject(Encode(c)) == Some(Members(c))
  {
    var ms := Members(c);
    MemberNamesPlain(c);
    MembersRoundTrip(ms, "");
    var body := WriteMembers(ms) + "}";
    assert body == WriteMembers(ms) + ("}" + "");
    assert Expect("{", Encode(c)) == Some(body);
    assert !StartsWith(body, "}") by { assert body[0] == '"'; }
  }

  /** No field name contains a quote. */
  lemma MemberNamesPlain(c: OverlayConfig)
    ensures forall i :: 0 <= i < |Members(c)| ==> NoQuote(Members(c)[i].name)
  {
  }

  /** An empty object, and so any object whose members are all unknown,
      reads as the defaults. */
  lemma EmptyObjectIsDefault()
    ensures Decode("{}") == Some(DefaultOverlay)
  {
    assert Expect("{", "{}") == Some("}");
  }
}
