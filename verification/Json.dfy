/** JSON texts: the pretty printer that writes them, a reader that shares nothing with it, and the round
    trip between the two, in UTF-8 bytes. */
module Json {
  import opened Wrappers
  import opened SliceNames

  datatype Member = Member(key: string, value: Json)

  /** The JSON values that a Manifest is made of. */
  datatype Json = Number(n: nat) | Text(s: string) | List(items: seq<Json>) | Object(members: seq<Member>)

  // ----- Writing -----

  function Indent(depth: nat): string {
    if depth == 0 then "" else "  " + Indent(depth - 1)
  }

  function Quoted(s: string): string {
    "\"" + s + "\""
  }

  /** `to_vec_pretty`: two spaces for each level. Texts are written as they are, so they must hold no
      character that JSON escapes. */
  function Pretty(j: Json, depth: nat): string
    decreases j, 0
  {
    match j
    case Number(n) => Decimal(n)
    case Text(s) => Quoted(s)
    case List(items) => if items == [] then "[]" else "[\n" + PrettyItems(items, depth + 1) + "\n" + Indent(depth) + "]"
    case Object(members) => if members == [] then "{}" else "{\n" + PrettyMembers(members, depth + 1) + "\n" + Indent(depth) + "}"
  }

  function PrettyItems(items: seq<Json>, depth: nat): string
    requires items != []
    decreases items, 1
  {
    Indent(depth) + Pretty(items[0], depth) + if |items| == 1 then "" else ",\n" + PrettyItems(items[1..], depth)
  }

  function PrettyMembers(members: seq<Member>, depth: nat): string
    requires members != []
    decreases members, 1
  {
    Indent(depth) + Quoted(members[0].key) + ": " + Pretty(members[0].value, depth)
    + if |members| == 1 then "" else ",\n" + PrettyMembers(members[1..], depth)
  }

  // ----- Reading -----

  predicate IsSpace(c: char) {
    c == ' ' || c == '\n' || c == '\r' || c == '\t'
  }

  predicate IsDigit(c: char) {
    '0' <= c <= '9'
  }

  /** A character that stands for itself inside a JSON string. */
  predicate IsPlain(c: char) {
    (c as int) >= 0x20 && c != '"' && c != '\\'
  }

  function SkipSpace(t: string): (r: string)
    ensures |r| <= |t| && (r == "" || !IsSpace(r[0]))
  {
    if t != "" && IsSpace(t[0]) then SkipSpace(t[1..]) else t
  }

  /** A string after its opening quote. Escapes are not read. */
  function ReadText(t: string): (r: Option<(string, string)>)
    ensures r.Some? ==> |r.value.1| < |t|
  {
    if t == "" then None
    else if t[0] == '"' then Some(("", t[1..]))
    else if !IsPlain(t[0]) then None
    else match ReadText(t[1..])
      case None => None
      case Some((s, rest)) => Some(([t[0]] + s, rest))
  }

  function Digits(t: string): (r: string)
    ensures r <= t && forall k :: 0 <= k < |r| ==> IsDigit(r[k])
  {
    if t != "" && IsDigit(t[0]) then [t[0]] + Digits(t[1..]) else ""
  }

  /** Any value, with white space between any two tokens. */
  function ReadValue(t: string): (r: Option<(Json, string)>)
    ensures r.Some? ==> |r.value.1| < |t|
    decreases |t|, 0
  {
    var s := SkipSpace(t);
    if s == "" then None
    else if s[0] == '"' then
      match ReadText(s[1..])
      case None => None
      case Some((text, rest)) => Some((Text(text), rest))
    else if IsDigit(s[0]) then
      var digits := Digits(s);
      if |digits| > 1 && digits[0] == '0' then None else Some((Number(DigitsValue(digits)), s[|digits|..]))
    else if s[0] == '[' then
      var inside := SkipSpace(s[1..]);
      if inside != "" && inside[0] == ']' then Some((List([]), inside[1..]))
      else match ReadItems(s[1..])
        case None => None
        case Some((items, rest)) => Some((List(items), rest))
    else if s[0] == '{' then
      var inside := SkipSpace(s[1..]);
      if inside != "" && inside[0] == '}' then Some((Object([]), inside[1..]))
      else match ReadMembers(s[1..])
        case None => None
        case Some((members, rest)) => Some((Object(members), rest))
    else None
  }

  /** The rest of a list: a value, then a comma and more, or the closing bracket. */
  function ReadItems(t: string): (r: Option<(seq<Json>, string)>)
    ensures r.Some? ==> |r.value.1| < |t|
    decreases |t|, 1
  {
    match ReadValue(t)
    case None => None
    case Some((item, more)) =>
      var next := SkipSpace(more);
      if next == "" then None
      else if next[0] == ']' then Some(([item], next[1..]))
      else if next[0] != ',' then None
      else match ReadItems(next[1..])
        case None => None
        case Some((items, rest)) => Some(([item] + items, rest))
  }

  /** The rest of an object: a key, a colon and a value, then a comma and more, or the closing brace. */
  function ReadMembers(t: string): (r: Option<(seq<Member>, string)>)
    ensures r.Some? ==> |r.value.1| < |t|
    decreases |t|, 1
  {
    var s := SkipSpace(t);
    if s == "" || s[0] != '"' then None
    else match ReadText(s[1..])
      case None => None
      case Some((key, afterKey)) =>
        var colon := SkipSpace(afterKey);
        if colon == "" || colon[0] != ':' then None
        else match ReadValue(colon[1..])
          case None => None
          case Some((value, more)) =>
            var next := SkipSpace(more);
            if next == "" then None
            else if next[0] == '}' then Some(([Member(key, value)], next[1..]))
            else if next[0] != ',' then None
            else match ReadMembers(next[1..])
              case None => None
              case Some((members, rest)) => Some(([Member(key, value)] + members, rest))
  }

  /** A whole document: one value and nothing but white space after it. */
  function ReadDocument(t: string): Option<Json> {
    match ReadValue(t)
    case None => None
    case Some((j, rest)) => if SkipSpace(rest) == "" then Some(j) else None
  }

  // ----- The round trip -----

  predicate PlainText(s: string) {
    forall k :: 0 <= k < |s| ==> IsPlain(s[k])
  }

  predicate Plain(j: Json)
    decreases j, 0
  {
    match j
    case Number(_) => true
    case Text(s) => PlainText(s)
    case List(items) => forall k :: 0 <= k < |items| ==> Plain(items[k])
    case Object(members) => forall k :: 0 <= k < |members| ==> PlainText(members[k].key) && Plain(members[k].value)
  }

  lemma {:induction false} IndentSkips(depth: nat, rest: string)
    ensures SkipSpace(Indent(depth) + rest) == SkipSpace(rest)
  {
    if depth == 0 {
      assert Indent(depth) + rest == rest;
    } else {
      var t := Indent(depth) + rest;
      assert t[1..][1..] == Indent(depth - 1) + rest;
      IndentSkips(depth - 1, rest);
    }
  }

  lemma {:induction false} TextReadsBack(s: string, rest: string)
    requires PlainText(s)
    ensures ReadText(s + "\"" + rest) == Some((s, rest))
  {
    var t := s + "\"" + rest;
    if s == "" {
      assert t[1..] == rest;
    } else {
      assert t[1..] == s[1..] + "\"" + rest;
      TextReadsBack(s[1..], rest);
      assert s == [s[0]] + s[1..];
    }
  }

  lemma {:induction false} DigitsReadBack(digits: string, rest: string)
    requires forall k :: 0 <= k < |digits| ==> IsDigit(digits[k])
    requires rest == "" || !IsDigit(rest[0])
    ensures Digits(digits + rest) == digits
  {
    if digits == "" {
      assert digits + rest == rest;
    } else {
      assert (digits + rest)[1..] == digits[1..] + rest;
      DigitsReadBack(digits[1..], rest);
      assert digits == [digits[0]] + digits[1..];
    }
  }

  lemma {:induction false} NoLeadingZero(n: nat)
    ensures |Decimal(n)| >= 1 && (|Decimal(n)| > 1 ==> Decimal(n)[0] != '0')
    ensures n > 0 ==> Decimal(n)[0] != '0'
  {
    if n >= 10 {
      NoLeadingZero(n / 10);
      assert Decimal(n)[0] == Decimal(n / 10)[0];
    } else {
      DigitCharValue(n);
    }
  }

  lemma NumberReadsBack(n: nat, rest: string)
    requires rest == "" || !IsDigit(rest[0])
    ensures ReadValue(Decimal(n) + rest) == Some((Number(n), rest))
  {
    DecimalValue(n);
    NoLeadingZero(n);
    hide Decimal;
    var t := Decimal(n) + rest;
    DigitsReadBack(Decimal(n), rest);
    assert SkipSpace(t) == t;
    assert t[|Decimal(n)|..] == rest;
  }

  lemma NewlineSkips(rest: string)
    ensures SkipSpace("\n" + rest) == SkipSpace(rest)
  {
    assert ("\n" + rest)[1..] == rest;
  }

  /** Leading white space makes no difference to what is read. */
  lemma SameAfterSpace(a: string, b: string)
    requires SkipSpace(a) == SkipSpace(b)
    ensures ReadValue(a) == ReadValue(b) && ReadItems(a) == ReadItems(b) && ReadMembers(a) == ReadMembers(b)
  {
    hide SkipSpace;
  }

  lemma PrettyStarts(j: Json, depth: nat, rest: string)
    ensures SkipSpace(Pretty(j, depth) + rest) == Pretty(j, depth) + rest
    ensures Pretty(j, depth) != "" && Pretty(j, depth)[0] != ']' && Pretty(j, depth)[0] != '}'
  {
    if j.Number? {
      DecimalValue(j.n);
      NoLeadingZero(j.n);
    }
  }

  lemma Associates(a: string, b: string, c: string)
    ensures (a + b) + c == a + (b + c)
  {
  }

  /** What the printer writes, at any depth and before anything but a digit, is read back. */
  lemma {:induction false} ReadsBack(j: Json, depth: nat, rest: string)
    requires Plain(j) && (rest == "" || !IsDigit(rest[0]))
    ensures ReadValue(Pretty(j, depth) + rest) == Some((j, rest))
    decreases j, 0
  {
    hide ReadValue, ReadItems, ReadMembers, SkipSpace, PrettyItems, PrettyMembers, Decimal, Quoted, Indent, PlainText;
    match j {
      case Number(n) => NumberReadsBack(n, rest);
      case Text(s) => QuotedReadsBack(s, rest);
      case List(items) =>
        if items == [] {
          EmptyReadsBack("[]", rest);
        } else {
          var tail := "\n" + Indent(depth) + "]" + rest;
          TailSkips(depth, "]", rest);
          ItemsReadBack(items, depth + 1, tail, rest);
          ListReadsBack(items, depth, rest);
        }
      case Object(members) =>
        if members == [] {
          EmptyReadsBack("{}", rest);
        } else {
          var tail := "\n" + Indent(depth) + "}" + rest;
          TailSkips(depth, "}", rest);
          MembersReadBack(members, depth + 1, tail, rest);
          ObjectReadsBack(members, depth, rest);
        }
    }
  }

  lemma QuotedReadsBack(s: string, rest: string)
    requires PlainText(s)
    ensures ReadValue(Quoted(s) + rest) == Some((Text(s), rest))
  {
    TextReadsBack(s, rest);
    var after := s + "\"" + rest;
    assert Quoted(s) + rest == "\"" + after;
    OpeningStays("\"", after);
    hide ReadText, SkipSpace, ReadItems, ReadMembers, Digits;
  }

  lemma EmptyReadsBack(brackets: string, rest: string)
    requires brackets == "[]" || brackets == "{}"
    ensures ReadValue(brackets + rest) == Some((if brackets == "[]" then List([]) else Object([]), rest))
  {
    var t := brackets + rest;
    assert t[1..] == [brackets[1]] + rest && t[1..][1..] == rest;
  }

  lemma TailSkips(depth: nat, bracket: string, rest: string)
    requires bracket == "]" || bracket == "}"
    ensures SkipSpace("\n" + Indent(depth) + bracket + rest) == bracket + rest
  {
    NewlineSkips(Indent(depth) + (bracket + rest));
    IndentSkips(depth, bracket + rest);
    assert "\n" + Indent(depth) + bracket + rest == "\n" + (Indent(depth) + (bracket + rest));
  }

  /** The five pieces of a printed list or object, regrouped from the left. */
  lemma Framed(open: string, body: string, indent: string, close: string, rest: string)
    ensures open + "\n" + body + "\n" + indent + close + rest == open + ("\n" + (body + ("\n" + indent + close + rest)))
  {
    var tail := "\n" + indent + close + rest;
    assert open + "\n" + body + "\n" + indent + close + rest == (open + "\n" + body) + tail;
    Associates(open + "\n", body, tail);
    Associates(open, "\n", body + tail);
  }

  lemma OpensList(inner: string, items: seq<Json>, rest: string)
    requires SkipSpace(inner) != "" && SkipSpace(inner)[0] != ']' && ReadItems(inner) == Some((items, rest))
    ensures ReadValue("[" + inner) == Some((List(items), rest))
  {
    hide ReadItems, ReadMembers, ReadText, Digits;
    OpeningStays("[", inner);
  }

  lemma OpensObject(inner: string, members: seq<Member>, rest: string)
    requires SkipSpace(inner) != "" && SkipSpace(inner)[0] != '}' && ReadMembers(inner) == Some((members, rest))
    ensures ReadValue("{" + inner) == Some((Object(members), rest))
  {
    hide ReadItems, ReadMembers, ReadText, Digits;
    OpeningStays("{", inner);
  }

  lemma OpeningStays(open: string, inner: string)
    requires |open| == 1 && !IsSpace(open[0])
    ensures SkipSpace(open + inner) == open + inner && (open + inner)[0] == open[0] && (open + inner)[1..] == inner
  {
  }

  lemma ListReadsBack(items: seq<Json>, depth: nat, rest: string)
    requires items != []
    requires ReadItems(PrettyItems(items, depth + 1) + ("\n" + Indent(depth) + "]" + rest)) == Some((items, rest))
    ensures ReadValue(Pretty(List(items), depth) + rest) == Some((List(items), rest))
  {
    var body, tail := PrettyItems(items, depth + 1), "\n" + Indent(depth) + "]" + rest;
    ItemsStart(items, depth + 1, tail);
    ListText(items, depth, rest);
    hide PrettyItems, ReadItems, ReadValue, Pretty, SkipSpace;
    NewlineSkips(body + tail);
    SameAfterSpace("\n" + (body + tail), body + tail);
    OpensList("\n" + (body + tail), items, rest);
  }

  lemma ListText(items: seq<Json>, depth: nat, rest: string)
    requires items != []
    ensures Pretty(List(items), depth) + rest
         == "[" + ("\n" + (PrettyItems(items, depth + 1) + ("\n" + Indent(depth) + "]" + rest)))
  {
    hide PrettyItems, Indent;
    Framed("[", PrettyItems(items, depth + 1), Indent(depth), "]", rest);
    assert "[\n" == "[" + "\n";
  }

  lemma ItemsText(items: seq<Json>, depth: nat, tail: string)
    requires items != []
    ensures PrettyItems(items, depth) + tail == Indent(depth) + (Pretty(items[0], depth) + AfterItem(items, depth, tail))
  {
    hide Pretty, Indent;
    var first := Pretty(items[0], depth);
    var later := if |items| == 1 then "" else ",\n" + PrettyItems(items[1..], depth);
    assert PrettyItems(items, depth) == Indent(depth) + first + later;
    assert AfterItem(items, depth, tail) == later + tail by { SeparatorText(items, depth, tail); }
    hide PrettyItems, AfterItem;
    Associates(Indent(depth) + first, later, tail);
    Associates(Indent(depth), first, later + tail);
  }

  lemma SeparatorText(items: seq<Json>, depth: nat, tail: string)
    requires items != []
    ensures AfterItem(items, depth, tail) == (if |items| == 1 then "" else ",\n" + PrettyItems(items[1..], depth)) + tail
  {
    hide PrettyItems;
    if |items| > 1 {
      var next := PrettyItems(items[1..], depth);
      assert ",\n" + next + tail == "," + ("\n" + (next + tail));
    } else {
      assert "" + tail == tail;
    }
  }

  function AfterItem(items: seq<Json>, depth: nat, tail: string): string
    requires items != []
  {
    if |items| == 1 then tail else "," + ("\n" + (PrettyItems(items[1..], depth) + tail))
  }

  lemma ItemsStart(items: seq<Json>, depth: nat, tail: string)
    requires items != []
    ensures SkipSpace(PrettyItems(items, depth) + tail) != "" && SkipSpace(PrettyItems(items, depth) + tail)[0] != ']'
  {
    hide PrettyItems, Pretty;
    ItemsText(items, depth, tail);
    IndentSkips(depth, Pretty(items[0], depth) + AfterItem(items, depth, tail));
    PrettyStarts(items[0], depth, AfterItem(items, depth, tail));
  }

  lemma LastItem(x: string, item: Json, more: string, rest: string)
    requires ReadValue(x) == Some((item, more)) && SkipSpace(more) == "]" + rest
    ensures ReadItems(x) == Some(([item], rest))
  {
    hide ReadValue, SkipSpace;
    assert ("]" + rest)[1..] == rest;
  }

  lemma NextItem(x: string, item: Json, more: string, later: seq<Json>, rest: string)
    requires ReadValue(x) == Some((item, "," + more)) && ReadItems(more) == Some((later, rest))
    ensures ReadItems(x) == Some(([item] + later, rest))
  {
    hide ReadValue;
    OpeningStays(",", more);
    hide SkipSpace;
  }

  lemma {:induction false} ItemsReadBack(items: seq<Json>, depth: nat, tail: string, rest: string)
    requires items != [] && forall k :: 0 <= k < |items| ==> Plain(items[k])
    requires tail != "" && tail[0] == '\n' && SkipSpace(tail) == "]" + rest
    ensures ReadItems(PrettyItems(items, depth) + tail) == Some((items, rest))
    decreases items, 1
  {
    hide PrettyItems, Pretty, ReadItems, ReadValue, SkipSpace, Plain, Indent;
    var more := AfterItem(items, depth, tail);
    var x := Pretty(items[0], depth) + more;
    ItemsText(items, depth, tail);
    IndentSkips(depth, x);
    SameAfterSpace(PrettyItems(items, depth) + tail, x);
    ReadsBack(items[0], depth, more);
    if |items| == 1 {
      LastItem(x, items[0], more, rest);
      assert items == [items[0]];
    } else {
      var next := PrettyItems(items[1..], depth) + tail;
      ItemsReadBack(items[1..], depth, tail, rest);
      NewlineSkips(next);
      SameAfterSpace("\n" + next, next);
      NextItem(x, items[0], "\n" + next, items[1..], rest);
      assert items == [items[0]] + items[1..];
    }
  }

  lemma ObjectReadsBack(members: seq<Member>, depth: nat, rest: string)
    requires members != []
    requires ReadMembers(PrettyMembers(members, depth + 1) + ("\n" + Indent(depth) + "}" + rest)) == Some((members, rest))
    ensures ReadValue(Pretty(Object(members), depth) + rest) == Some((Object(members), rest))
  {
    var body, tail := PrettyMembers(members, depth + 1), "\n" + Indent(depth) + "}" + rest;
    MembersStart(members, depth + 1, tail);
    ObjectText(members, depth, rest);
    hide PrettyMembers, ReadMembers, ReadValue, Pretty, SkipSpace;
    NewlineSkips(body + tail);
    SameAfterSpace("\n" + (body + tail), body + tail);
    OpensObject("\n" + (body + tail), members, rest);
  }

  lemma ObjectText(members: seq<Member>, depth: nat, rest: string)
    requires members != []
    ensures Pretty(Object(members), depth) + rest
         == "{" + ("\n" + (PrettyMembers(members, depth + 1) + ("\n" + Indent(depth) + "}" + rest)))
  {
    hide PrettyMembers, Indent;
    Framed("{", PrettyMembers(members, depth + 1), Indent(depth), "}", rest);
    assert "{\n" == "{" + "\n";
  }

  function AfterMember(members: seq<Member>, depth: nat, tail: string): string
    requires members != []
  {
    if |members| == 1 then tail else "," + ("\n" + (PrettyMembers(members[1..], depth) + tail))
  }

  /** The text of a member whose value and what follows it are given. */
  function MemberText(key: string, value: string): string {
    "\"" + (key + "\"" + (":" + (" " + value)))
  }

  lemma MemberSeparatorText(members: seq<Member>, depth: nat, tail: string)
    requires members != []
    ensures AfterMember(members, depth, tail) == (if |members| == 1 then "" else ",\n" + PrettyMembers(members[1..], depth)) + tail
  {
    hide PrettyMembers;
    if |members| > 1 {
      var next := PrettyMembers(members[1..], depth);
      assert ",\n" + next + tail == "," + ("\n" + (next + tail));
    } else {
      assert "" + tail == tail;
    }
  }

  lemma MembersText(members: seq<Member>, depth: nat, tail: string)
    requires members != []
    ensures PrettyMembers(members, depth) + tail
         == Indent(depth) + MemberText(members[0].key, Pretty(members[0].value, depth) + AfterMember(members, depth, tail))
  {
    hide Pretty, Indent;
    var value := Pretty(members[0].value, depth);
    var later := if |members| == 1 then "" else ",\n" + PrettyMembers(members[1..], depth);
    var head := Indent(depth) + Quoted(members[0].key) + ": ";
    assert PrettyMembers(members, depth) == head + value + later;
    MemberSeparatorText(members, depth, tail);
    hide PrettyMembers, AfterMember, Quoted, MemberText;
    Associates(head + value, later, tail);
    Associates(head, value, later + tail);
    HeadText(Indent(depth), members[0].key, value + (later + tail));
  }

  lemma HeadText(indent: string, key: string, value: string)
    ensures indent + Quoted(key) + ": " + value == indent + MemberText(key, value)
  {
    QuotedMember(key, value);
    hide Quoted, MemberText;
    Associates(indent, Quoted(key), ": ");
    Associates(indent, Quoted(key) + ": ", value);
  }

  lemma QuotedMember(key: string, value: string)
    ensures Quoted(key) + ": " + value == MemberText(key, value)
  {
  }

  lemma MembersStart(members: seq<Member>, depth: nat, tail: string)
    requires members != []
    ensures SkipSpace(PrettyMembers(members, depth) + tail) != "" && SkipSpace(PrettyMembers(members, depth) + tail)[0] != '}'
  {
    hide PrettyMembers, Pretty, AfterMember;
    MembersText(members, depth, tail);
    IndentSkips(depth, MemberText(members[0].key, Pretty(members[0].value, depth) + AfterMember(members, depth, tail)));
  }

  /** A key is read, then the colon, and what is left is the value. */
  lemma KeyReadsBack(key: string, value: string)
    requires PlainText(key)
    ensures var t := MemberText(key, value);
            && SkipSpace(t) == t && t[0] == '"' && ReadText(t[1..]) == Some((key, ":" + (" " + value)))
  {
    var after := ":" + (" " + value);
    OpeningStays("\"", key + "\"" + after);
    TextReadsBack(key, after);
    hide ReadText, SkipSpace;
  }

  lemma LastMember(key: string, text: string, value: Json, more: string, rest: string)
    requires PlainText(key) && ReadValue(text) == Some((value, more)) && SkipSpace(more) == "}" + rest
    ensures ReadMembers(MemberText(key, text)) == Some(([Member(key, value)], rest))
  {
    KeyReadsBack(key, text);
    OpeningStays(":", " " + text);
    SpaceSkips(text);
    SameAfterSpace(" " + text, text);
    assert ("}" + rest)[1..] == rest;
    hide ReadValue, ReadText, SkipSpace, MemberText;
  }

  lemma NextMember(key: string, text: string, value: Json, more: string, later: seq<Member>, rest: string)
    requires PlainText(key) && ReadValue(text) == Some((value, "," + more)) && ReadMembers(more) == Some((later, rest))
    ensures ReadMembers(MemberText(key, text)) == Some(([Member(key, value)] + later, rest))
  {
    KeyReadsBack(key, text);
    OpeningStays(":", " " + text);
    OpeningStays(",", more);
    SpaceSkips(text);
    SameAfterSpace(" " + text, text);
    hide ReadValue, ReadText, SkipSpace, MemberText;
  }

  lemma {:induction false} MembersReadBack(members: seq<Member>, depth: nat, tail: string, rest: string)
    requires members != [] && forall k :: 0 <= k < |members| ==> PlainText(members[k].key) && Plain(members[k].value)
    requires tail != "" && tail[0] == '\n' && SkipSpace(tail) == "}" + rest
    ensures ReadMembers(PrettyMembers(members, depth) + tail) == Some((members, rest))
    decreases members, 1
  {
    hide PrettyMembers, Pretty, ReadMembers, ReadValue, SkipSpace, MemberText, PlainText, Plain, Indent;
    var key, value, more := members[0].key, members[0].value, AfterMember(members, depth, tail);
    var text := Pretty(value, depth) + more;
    MembersText(members, depth, tail);
    IndentSkips(depth, MemberText(key, text));
    SameAfterSpace(PrettyMembers(members, depth) + tail, MemberText(key, text));
    ReadsBack(value, depth, more);
    if |members| == 1 {
      LastMember(key, text, value, more, rest);
      assert members == [members[0]];
    } else {
      var next := PrettyMembers(members[1..], depth) + tail;
      MembersReadBack(members[1..], depth, tail, rest);
      NewlineSkips(next);
      SameAfterSpace("\n" + next, next);
      NextMember(key, text, value, "\n" + next, members[1..], rest);
      assert members == [members[0]] + members[1..];
    }
  }

  lemma SpaceSkips(rest: string)
    ensures SkipSpace(" " + rest) == SkipSpace(rest)
  {
    assert (" " + rest)[1..] == rest;
  }

  /** A printed document with its final line feed is read back. */
  lemma DocumentReadsBack(j: Json)
    requires Plain(j)
    ensures ReadDocument(Pretty(j, 0) + "\n") == Some(j)
  {
    hide Pretty;
    ReadsBack(j, 0, "\n");
    assert "\n"[1..] == "";
  }

  // ----- How long a printed text gets -----

  /** The length of a printed value in UTF-8 bytes. */
  function Size(j: Json, depth: nat): nat
    decreases j, 0
  {
    match j
    case Number(n) => |Decimal(n)|
    case Text(s) => Utf8Length(s) + 2
    case List(items) => if items == [] then 2 else ItemsSize(items, depth + 1) + 2 * depth + 4
    case Object(members) => if members == [] then 2 else MembersSize(members, depth + 1) + 2 * depth + 4
  }

  function ItemsSize(items: seq<Json>, depth: nat): nat
    requires items != []
    decreases items, 1
  {
    2 * depth + Size(items[0], depth) + if |items| == 1 then 0 else 2 + ItemsSize(items[1..], depth)
  }

  function MembersSize(members: seq<Member>, depth: nat): nat
    requires members != []
    decreases members, 1
  {
    2 * depth + Utf8Length(members[0].key) + 4 + Size(members[0].value, depth)
    + if |members| == 1 then 0 else 2 + MembersSize(members[1..], depth)
  }

  lemma DecimalIsAscii(n: nat)
    ensures Utf8Length(Decimal(n)) == |Decimal(n)|
  {
    DecimalValue(n);
    forall c | c in Decimal(n)
      ensures (c as int) < 0x80
    {
      var k :| 0 <= k < |Decimal(n)| && Decimal(n)[k] == c;
    }
    Utf8Ascii(Decimal(n));
  }

  lemma {:induction false} IndentSize(depth: nat)
    ensures Utf8Length(Indent(depth)) == 2 * depth
  {
    if depth > 0 {
      IndentSize(depth - 1);
      Utf8Append("  ", Indent(depth - 1));
      Utf8Ascii("  ");
    }
  }

  lemma FrameSize(open: string, body: string, depth: nat, close: string)
    requires |open| == 2 && |close| == 1
    requires (forall c :: c in open ==> (c as int) < 0x80) && forall c :: c in close ==> (c as int) < 0x80
    ensures Utf8Length(open + body + "\n" + Indent(depth) + close) == Utf8Length(body) + 2 * depth + 4
  {
    hide Utf8Length, Indent;
    IndentSize(depth);
    Utf8Ascii(open);
    Utf8Ascii(close);
    Utf8Ascii("\n");
    Utf8Append(open, body);
    Utf8Append(open + body, "\n");
    Utf8Append(open + body + "\n", Indent(depth));
    Utf8Append(open + body + "\n" + Indent(depth), close);
  }

  lemma {:induction false} PrettySize(j: Json, depth: nat)
    ensures Utf8Length(Pretty(j, depth)) == Size(j, depth)
    decreases j, 0
  {
    hide Utf8Length, Indent, PrettyItems, PrettyMembers, ItemsSize, MembersSize, Decimal;
    match j {
      case Number(n) => DecimalIsAscii(n);
      case Text(s) =>
        Utf8Ascii("\"");
        Utf8Append("\"", s);
        Utf8Append("\"" + s, "\"");
      case List(items) =>
        if items == [] {
          Utf8Ascii("[]");
        } else {
          ItemsPrettySize(items, depth + 1);
          FrameSize("[\n", PrettyItems(items, depth + 1), depth, "]");
        }
      case Object(members) =>
        if members == [] {
          Utf8Ascii("{}");
        } else {
          MembersPrettySize(members, depth + 1);
          FrameSize("{\n", PrettyMembers(members, depth + 1), depth, "}");
        }
    }
  }

  lemma {:induction false} ItemsPrettySize(items: seq<Json>, depth: nat)
    requires items != []
    ensures Utf8Length(PrettyItems(items, depth)) == ItemsSize(items, depth)
    decreases items, 1
  {
    hide Utf8Length, Indent, Pretty, Size;
    var head := Indent(depth) + Pretty(items[0], depth);
    IndentSize(depth);
    PrettySize(items[0], depth);
    Utf8Append(Indent(depth), Pretty(items[0], depth));
    if |items| > 1 {
      ItemsPrettySize(items[1..], depth);
      Utf8Ascii(",\n");
      Utf8Append(",\n", PrettyItems(items[1..], depth));
      Utf8Append(head, ",\n" + PrettyItems(items[1..], depth));
    } else {
      assert head + "" == head;
    }
  }

  lemma KeySize(key: string, depth: nat)
    ensures Utf8Length(Indent(depth) + Quoted(key) + ": ") == 2 * depth + Utf8Length(key) + 4
  {
    hide Utf8Length, Indent;
    IndentSize(depth);
    Utf8Ascii("\"");
    Utf8Ascii(": ");
    Utf8Append("\"", key);
    Utf8Append("\"" + key, "\"");
    Utf8Append(Indent(depth), Quoted(key));
    Utf8Append(Indent(depth) + Quoted(key), ": ");
  }

  lemma {:induction false} MembersPrettySize(members: seq<Member>, depth: nat)
    requires members != []
    ensures Utf8Length(PrettyMembers(members, depth)) == MembersSize(members, depth)
    decreases members, 1
  {
    hide Utf8Length, Indent, Pretty, Size, Quoted;
    var key := Indent(depth) + Quoted(members[0].key) + ": ";
    var head := key + Pretty(members[0].value, depth);
    KeySize(members[0].key, depth);
    PrettySize(members[0].value, depth);
    Utf8Append(key, Pretty(members[0].value, depth));
    if |members| > 1 {
      MembersPrettySize(members[1..], depth);
      Utf8Ascii(",\n");
      Utf8Append(",\n", PrettyMembers(members[1..], depth));
      Utf8Append(head, ",\n" + PrettyMembers(members[1..], depth));
    } else {
      assert head + "" == head;
    }
  }

  /** The size of the members from the `k`-th on. */
  lemma MembersSizeFrom(members: seq<Member>, k: nat, depth: nat)
    requires k < |members|
    ensures members[k..] != []
    ensures MembersSize(members[k..], depth)
         == 2 * depth + Utf8Length(members[k].key) + 4 + Size(members[k].value, depth)
            + if k + 1 == |members| then 0 else 2 + MembersSize(members[k + 1..], depth)
  {
    hide Utf8Length, Size;
    assert members[k..][1..] == members[k + 1..];
  }

  lemma {:induction false} ItemsSizeBetween(items: seq<Json>, depth: nat, low: nat, high: nat)
    requires items != [] && forall k :: 0 <= k < |items| ==> low <= 2 * depth + Size(items[k], depth) <= high
    ensures |items| * low <= ItemsSize(items, depth) <= |items| * (high + 2)
  {
    hide Size;
    if |items| > 1 {
      var later := items[1..];
      assert forall k :: 0 <= k < |later| ==> later[k] == items[k + 1];
      ItemsSizeBetween(later, depth, low, high);
      Distribute(|later|, low);
      Distribute(|later|, high + 2);
    }
  }

  lemma Distribute(a: nat, b: nat)
    ensures (a + 1) * b == a * b + b
  {
  }
}
