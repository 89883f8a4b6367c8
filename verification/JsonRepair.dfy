/**
 Repairing the JSON text a recognition model returns: raw control characters
 inside strings become spaces, and quotes inside strings become apostrophes. A
 quote counts as the end of its string when a colon, comma or closing bracket
 follows it, or nothing does.
 */
module JsonRepair {
  import opened Basics

  datatype Mode = Outside | Inside | Escaped

  predicate IsControl(c: char) {
    c < ' '
  }

  function SkipSpace(s: string): (r: string)
    ensures |r| <= |s|
  {
    if s == [] || !IsSpace(s[0]) then s else SkipSpace(s[1..])
  }

  predicate IsFollower(c: char) {
    c == ':' || c == ',' || c == '}' || c == ']'
  }

  /** Whether a quote before `rest` ends its string. */
  predicate Closes(rest: string) {
    SkipSpace(rest) == [] || IsFollower(SkipSpace(rest)[0])
  }

  function NextMode(c: char, rest: string, mode: Mode): Mode {
    match mode
    case Outside => if c == '"' then Inside else Outside
    case Escaped => Inside
    case Inside => if c == '\\' then Escaped else if c == '"' && Closes(rest) then Outside else Inside
  }

  function Repaired(c: char, rest: string, mode: Mode): char {
    if mode != Inside || c == '\\' then c
    else if IsControl(c) then ' '
    else if c == '"' && !Closes(rest) then '\''
    else c
  }

  function Repair(s: string, mode: Mode): (r: string)
    ensures |r| == |s|
  {
    if s == [] then []
    else [Repaired(s[0], s[1..], mode)] + Repair(s[1..], NextMode(s[0], s[1..], mode))
  }

  // ---------- the scanner ----------

  lemma {:induction false} SkipSpaceFrom(s: string, j: nat)
    requires j <= |s| && forall k | 0 <= k < j :: IsSpace(s[k])
    requires j == |s| || !IsSpace(s[j])
    ensures SkipSpace(s) == s[j..]
  {
    if j > 0 {
      SkipSpaceFrom(s[1..], j - 1);
    }
  }

  /** Looks past white space for what follows a quote. */
  method EndsString(raw: string, i: nat) returns (ends: bool)
    requires i < |raw|
    ensures ends == Closes(raw[i + 1..])
  {
    var j := i + 1;
    while j < |raw| && IsSpace(raw[j])
      invariant i < j <= |raw|
      invariant forall k | i < k < j :: IsSpace(raw[k])
    {
      j := j + 1;
    }
    SkipSpaceFrom(raw[i + 1..], j - i - 1);
    ends := j == |raw| || IsFollower(raw[j]);
  }

  /** The scanner moves on by one character. */
  lemma RepairNext(out: string, todo: string, mode: Mode, all: string)
    requires todo != [] && out + Repair(todo, mode) == all
    ensures out + [Repaired(todo[0], todo[1..], mode)] + Repair(todo[1..], NextMode(todo[0], todo[1..], mode)) == all
  {
    var c, rest := Repaired(todo[0], todo[1..], mode), Repair(todo[1..], NextMode(todo[0], todo[1..], mode));
    assert out + ([c] + rest) == out + [c] + rest;
  }

  method SanitizeUnescapedInnerQuotes(raw: string) returns (out: string)
    ensures out == Repair(raw, Outside)
  {
    out := [];
    var inString, escaped := false, false;
    ghost var mode, todo, all := Outside, raw, Repair(raw, Outside);
    for i := 0 to |raw|
      invariant todo == raw[i..]
      invariant out + Repair(todo, mode) == all
      invariant inString <==> mode != Outside
      invariant inString ==> (escaped <==> mode == Escaped)
    {
      var ch := raw[i];
      ghost var next := NextMode(ch, raw[i + 1..], mode);
      assert todo[0] == ch && todo[1..] == raw[i + 1..];
      RepairNext(out, todo, mode, all);
      if !inString {
        out := out + [ch];
        if ch == '"' {
          inString, escaped := true, false;
        }
      } else if escaped {
        out := out + [ch];
        escaped := false;
      } else if ch == '\\' {
        out := out + [ch];
        escaped := true;
      } else if IsControl(ch) {
        out := out + [' '];
      } else if ch == '"' {
        var ends := EndsString(raw, i);
        if ends {
          out := out + [ch];
          inString := false;
        } else {
          out := out + ['\''];
        }
      } else {
        out := out + [ch];
      }
      mode, todo := next, todo[1..];
    }
  }

  // ---------- what the repair does ----------

  /** Only control characters and quotes are changed, each in its place. */
  lemma {:induction false} ChangesLittle(s: string, mode: Mode, i: nat)
    requires i < |s|
    ensures var c := Repair(s, mode)[i];
            c == s[i] || (IsControl(s[i]) && c == ' ') || (s[i] == '"' && c == '\'')
  {
    if i > 0 {
      ChangesLittle(s[1..], NextMode(s[0], s[1..], mode), i - 1);
    }
  }

  /** Nothing to repair: inside strings there is no raw control character, except
      directly after a backslash, and every quote ends its string. */
  ghost predicate Clean(s: string, mode: Mode) {
    s == [] ||
    ((mode == Inside ==> !IsControl(s[0]) && (s[0] == '"' ==> Closes(s[1..]))) &&
     Clean(s[1..], NextMode(s[0], s[1..], mode)))
  }

  /** A text stays as it is exactly when there is nothing to repair. */
  lemma {:induction false} UnchangedExactly(s: string, mode: Mode)
    ensures Repair(s, mode) == s <==> Clean(s, mode)
  {
    if s != [] {
      var next := NextMode(s[0], s[1..], mode);
      UnchangedExactly(s[1..], next);
      var r := Repair(s, mode);
      assert r[1..] == Repair(s[1..], next);
      assert r == s <==> r[0] == s[0] && r[1..] == s[1..];
    }
  }

  /** Outside strings the repair leaves white space and what follows it. */
  lemma {:induction false} ClosesAfterRepair(s: string)
    ensures Closes(Repair(s, Outside)) == Closes(s)
  {
    if s != [] {
      var r := Repair(s, Outside);
      assert r[0] == s[0];
      if IsSpace(s[0]) {
        assert r[1..] == Repair(s[1..], Outside);
        ClosesAfterRepair(s[1..]);
      }
    }
  }

  /** After the repair there is nothing left to repair: no raw control character
      inside a string but directly after a backslash, no stray quote. */
  lemma {:induction false} RepairIsClean(s: string, mode: Mode)
    ensures Clean(Repair(s, mode), mode)
  {
    if s != [] {
      var next := NextMode(s[0], s[1..], mode);
      var r := Repair(s, mode);
      RepairIsClean(s[1..], next);
      assert r[1..] == Repair(s[1..], next);
      if mode == Inside && s[0] == '"' && Closes(s[1..]) {
        ClosesAfterRepair(s[1..]);
      }
      assert NextMode(r[0], r[1..], mode) == next;
    }
  }

  lemma RepairIsIdempotent(s: string, mode: Mode)
    ensures Repair(Repair(s, mode), mode) == Repair(s, mode)
  {
    RepairIsClean(s, mode);
    UnchangedExactly(Repair(s, mode), mode);
  }

  // ---------- JSON texts (RFC 8259) ----------

  /** Section 7: an unescaped character, or a backslash and what it escapes. */
  datatype Unit = Plain(c: char) | Escape(c: char)
  {
    predicate Valid() {
      Plain? ==> !IsControl(c) && c != '"' && c != '\\'
    }

    function Text(): string {
      if Plain? then [c] else ['\\', c]
    }
  }

  /** A value with the white space around it; a scalar is a number or a literal. */
  datatype Json = Json(before: string, core: Core, after: string)

  datatype Core =
    | Scalar(text: string)
    | String(units: seq<Unit>)
    | Array(ws: string, items: seq<Json>)
    | Object(ws: string, members: seq<Member>)

  datatype Member = Member(before: string, name: seq<Unit>, after: string, value: Json)

  predicate Ws(s: string) {
    forall i | 0 <= i < |s| :: s[i] == ' ' || s[i] == '\t' || s[i] == '\n' || s[i] == '\r'
  }

  predicate Unquoted(s: string) {
    forall i | 0 <= i < |s| :: s[i] != '"'
  }

  predicate ValidUnits(units: seq<Unit>) {
    forall i | 0 <= i < |units| :: units[i].Valid()
  }

  predicate Valid(v: Json) {
    Ws(v.before) && Ws(v.after) && ValidCore(v.core)
  }

  predicate ValidCore(core: Core) {
    match core
    case Scalar(text) => Unquoted(text)
    case String(units) => ValidUnits(units)
    case Array(ws, items) => Ws(ws) && forall i | 0 <= i < |items| :: Valid(items[i])
    case Object(ws, members) => Ws(ws) && forall i | 0 <= i < |members| :: ValidMember(members[i])
  }

  predicate ValidMember(m: Member) {
    Ws(m.before) && Ws(m.after) && ValidUnits(m.name) && Valid(m.value)
  }

  function UnitsText(units: seq<Unit>): string {
    if units == [] then [] else units[0].Text() + UnitsText(units[1..])
  }

  function Quoted(units: seq<Unit>): string {
    "\"" + UnitsText(units) + "\""
  }

  function Text(v: Json): string {
    v.before + CoreText(v.core) + v.after
  }

  function CoreText(core: Core): string {
    match core
    case Scalar(text) => text
    case String(units) => Quoted(units)
    case Array(ws, items) => "[" + ws + ItemsText(items) + "]"
    case Object(ws, members) => "{" + ws + MembersText(members) + "}"
  }

  function ItemsText(items: seq<Json>): string {
    if items == [] then [] else Text(items[0]) + (if |items| > 1 then "," else "") + ItemsText(items[1..])
  }

  function MemberText(m: Member): string {
    m.before + Quoted(m.name) + m.after + ":" + Text(m.value)
  }

  function MembersText(members: seq<Member>): string {
    if members == [] then []
    else MemberText(members[0]) + (if |members| > 1 then "," else "") + MembersText(members[1..])
  }

  /** Text without quotes in front changes nothing outside strings. */
  lemma {:induction false} UnquotedClean(s: string, rest: string)
    requires Unquoted(s) && Clean(rest, Outside)
    ensures Clean(s + rest, Outside)
  {
    if s == [] {
      assert s + rest == rest;
    } else {
      UnquotedClean(s[1..], rest);
      assert (s + rest)[1..] == s[1..] + rest;
    }
  }

  lemma {:induction false} ClosesPastSpace(ws: string, rest: string)
    requires Ws(ws)
    ensures Closes(ws + rest) == Closes(rest)
  {
    if ws == [] {
      assert ws + rest == rest;
    } else {
      ClosesPastSpace(ws[1..], rest);
      assert (ws + rest)[1..] == ws[1..] + rest;
    }
  }

  lemma CleanPrepend(c: char, rest: string, mode: Mode)
    ensures Clean([c] + rest, mode) <==>
            (mode == Inside ==> !IsControl(c) && (c == '"' ==> Closes(rest))) && Clean(rest, NextMode(c, rest, mode))
  {
    assert ([c] + rest)[1..] == rest;
  }

  lemma UnitClean(u: Unit, rest: string)
    requires u.Valid() && Clean(rest, Inside)
    ensures Clean(u.Text() + rest, Inside)
  {
    CleanPrepend(u.c, rest, if u.Plain? then Inside else Escaped);
    if u.Escape? {
      CleanPrepend('\\', [u.c] + rest, Inside);
      assert u.Text() + rest == ['\\'] + ([u.c] + rest);
    }
  }

  lemma {:induction false} UnitsClean(units: seq<Unit>, rest: string)
    requires ValidUnits(units) && Clean("\"" + rest, Inside)
    ensures Clean(UnitsText(units) + ("\"" + rest), Inside)
  {
    var tail := "\"" + rest;
    if units == [] {
      assert UnitsText(units) + tail == tail;
    } else {
      UnitsClean(units[1..], rest);
      var more := UnitsText(units[1..]) + tail;
      UnitClean(units[0], more);
      assert UnitsText(units) + tail == units[0].Text() + more;
    }
  }

  lemma QuotedClean(units: seq<Unit>, rest: string)
    requires ValidUnits(units) && Clean(rest, Outside) && Closes(rest)
    ensures Clean(Quoted(units) + rest, Outside)
  {
    var closing := "\"" + rest;
    assert closing[1..] == rest;
    UnitsClean(units, rest);
    assert (Quoted(units) + rest)[1..] == UnitsText(units) + closing;
  }

  /** What follows a value in a JSON text closes a string before it. */
  lemma ValueClean(v: Json, rest: string)
    requires Valid(v) && Clean(rest, Outside) && Closes(rest)
    ensures Clean(Text(v) + rest, Outside)
    decreases v, 1
  {
    UnquotedClean(v.after, rest);
    ClosesPastSpace(v.after, rest);
    CoreClean(v.core, v.after + rest);
    UnquotedClean(v.before, CoreText(v.core) + (v.after + rest));
    assert Text(v) + rest == v.before + (CoreText(v.core) + (v.after + rest));
  }

  lemma BracketsClean(open: string, ws: string, body: string, close: string, rest: string)
    requires Unquoted(open) && Ws(ws) && Clean(body + (close + rest), Outside)
    ensures Clean(open + ws + body + close + rest, Outside)
  {
    UnquotedClean(open + ws, body + (close + rest));
    assert open + ws + body + close + rest == open + ws + (body + (close + rest));
  }

  lemma CoreClean(core: Core, rest: string)
    requires ValidCore(core) && Clean(rest, Outside) && Closes(rest)
    ensures Clean(CoreText(core) + rest, Outside)
    decreases core, 0
  {
    match core {
      case Scalar(text) =>
        UnquotedClean(text, rest);
      case String(units) =>
        QuotedClean(units, rest);
      case Array(ws, items) =>
        UnquotedClean("]", rest);
        ItemsClean(items, "]" + rest);
        BracketsClean("[", ws, ItemsText(items), "]", rest);
      case Object(ws, members) =>
        UnquotedClean("}", rest);
        MembersClean(members, "}" + rest);
        BracketsClean("{", ws, MembersText(members), "}", rest);
    }
  }

  lemma Regroup(a: string, b: string, c: string, d: string)
    ensures a + b + c + d == a + (b + (c + d))
  {
  }

  lemma SeparatorClean(separator: string, rest: string)
    requires separator == "," || separator == ":" || separator == ""
    requires Clean(rest, Outside) && (separator == "" ==> Closes(rest))
    ensures Clean(separator + rest, Outside) && Closes(separator + rest)
  {
    UnquotedClean(separator, rest);
    if separator == "" {
      assert separator + rest == rest;
    }
  }

  lemma ItemsClean(items: seq<Json>, rest: string)
    requires (forall i | 0 <= i < |items| :: Valid(items[i])) && Clean(rest, Outside) && Closes(rest)
    ensures Clean(ItemsText(items) + rest, Outside)
    decreases items, 2
  {
    if items == [] {
      assert ItemsText(items) + rest == rest;
    } else {
      var separator := if |items| > 1 then "," else "";
      var more := ItemsText(items[1..]) + rest;
      ItemsClean(items[1..], rest);
      assert |items| == 1 ==> more == rest;
      SeparatorClean(separator, more);
      ValueClean(items[0], separator + more);
      Regroup(Text(items[0]), separator, ItemsText(items[1..]), rest);
    }
  }

  lemma MemberRegroup(before: string, name: string, after: string, value: string, rest: string)
    ensures before + name + after + ":" + value + rest == before + (name + (after + (":" + (value + rest))))
  {
  }

  lemma MemberClean(m: Member, rest: string)
    requires ValidMember(m) && Clean(rest, Outside) && Closes(rest)
    ensures Clean(MemberText(m) + rest, Outside)
    decreases m, 2
  {
    var value := Text(m.value) + rest;
    ValueClean(m.value, rest);
    SeparatorClean(":", value);
    UnquotedClean(m.after, ":" + value);
    ClosesPastSpace(m.after, ":" + value);
    QuotedClean(m.name, m.after + (":" + value));
    UnquotedClean(m.before, Quoted(m.name) + (m.after + (":" + value)));
    MemberRegroup(m.before, Quoted(m.name), m.after, Text(m.value), rest);
  }

  lemma MembersClean(members: seq<Member>, rest: string)
    requires (forall i | 0 <= i < |members| :: ValidMember(members[i])) && Clean(rest, Outside) && Closes(rest)
    ensures Clean(MembersText(members) + rest, Outside)
    decreases members, 2
  {
    if members == [] {
      assert MembersText(members) + rest == rest;
    } else {
      var separator := if |members| > 1 then "," else "";
      var more := MembersText(members[1..]) + rest;
      MembersClean(members[1..], rest);
      assert |members| == 1 ==> more == rest;
      SeparatorClean(separator, more);
      MemberClean(members[0], separator + more);
      Regroup(MemberText(members[0]), separator, MembersText(members[1..]), rest);
    }
  }

  /** A JSON text is left as it is. */
  lemma JsonTextUnchanged(v: Json)
    requires Valid(v)
    ensures Repair(Text(v), Outside) == Text(v)
  {
    ValueClean(v, "");
    assert Text(v) + "" == Text(v);
    UnchangedExactly(Text(v), Outside);
  }

  /** A quote inside a string that happens to stand before a comma is taken for
      the end: the repair is no cure for every text. */
  lemma InnerQuoteBeforeComma(text: seq<Unit>)
    requires ValidUnits(text)
    ensures var s := Quoted(text) + (",x" + "\""); Repair(s, Outside) == s
  {
    var last := "\"";
    assert last[1..] == "";
    assert Clean(last, Outside);
    UnquotedClean(",x", last);
    var rest := ",x" + last;
    assert rest[0] == ',';
    QuotedClean(text, rest);
    UnchangedExactly(Quoted(text) + rest, Outside);
  }
}
