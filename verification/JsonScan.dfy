/** The one-pass end-of-value scanner (core/llm/json_utils.py) against the JSON grammar (RFC 8259). */
module JsonScan {
  import opened Sequences

  // ------------------------------------------------------------ the scanner

  predicate IsOpener(c: char) {
    c == '{' || c == '['
  }

  function CloserOf(opener: char): char {
    if opener == '{' then '}' else ']'
  }

  datatype Scan = Scan(depth: int, inString: bool, escape: bool)

  /** One character of the loop body; the brackets of the other kind are ordinary characters. */
  function Step(s: Scan, c: char, opener: char): Scan {
    if s.inString then
      if s.escape then s.(escape := false)
      else if c == '\\' then s.(escape := true)
      else if c == '"' then s.(inString := false)
      else s
    else if c == '"' then s.(inString := true)
    else if c == opener then s.(depth := s.depth + 1)
    else if c == CloserOf(opener) then s.(depth := s.depth - 1)
    else s
  }

  /** The loop returns when a closer brings the depth to zero. */
  predicate Closes(s: Scan, c: char, opener: char) {
    !s.inString && c != opener && c == CloserOf(opener) && s.depth == 1
  }

  /** The index the loop returns when it reads text from `index` in state s. */
  function EndFrom(text: string, index: nat, opener: char, s: Scan): nat
    requires index <= |text|
    decreases |text| - index
  {
    if index == |text| then |text|
    else if Closes(s, text[index], opener) then index + 1
    else EndFrom(text, index + 1, opener, Step(s, text[index], opener))
  }

  lemma EndFromStep(text: string, index: nat, opener: char, s: Scan)
    requires index < |text|
    ensures EndFrom(text, index, opener, s) ==
            if Closes(s, text[index], opener) then index + 1
            else EndFrom(text, index + 1, opener, Step(s, text[index], opener))
  {
  }

  const START := Scan(0, false, false)

  method FindJsonEnd(text: string, start: nat) returns (end: nat)
    requires start < |text|
    ensures end == EndFrom(text, start, text[start], START)
    ensures start < end <= |text|
  {
    var opener := text[start];
    var closer := CloserOf(opener);
    var depth, inString, escape := 0, false, false;
    for index := start to |text|
      invariant EndFrom(text, start, opener, START) == EndFrom(text, index, opener, Scan(depth, inString, escape))
    {
      var c := text[index];
      EndFromStep(text, index, opener, Scan(depth, inString, escape));
      if inString {
        if escape {
          escape := false;
        } else if c == '\\' {
          escape := true;
        } else if c == '"' {
          inString := false;
        }
        continue;
      }
      if c == '"' {
        inString := true;
        continue;
      }
      if c == opener {
        depth := depth + 1;
      } else if c == closer {
        depth := depth - 1;
        if depth == 0 {
          return index + 1;
        }
      }
    }
    return |text|;
  }

  // ------------------------------------------------------------ the grammar

  /** Section 7: a character of a string is written unescaped, as a two-character escape, or as \u and four digits. */
  datatype StringChar = Plain(c: char) | Escaped(c: char) | Unicode(h: seq<char>)

  predicate IsHex(c: char) {
    '0' <= c <= '9' || 'a' <= c <= 'f' || 'A' <= c <= 'F'
  }

  predicate LegalChar(sc: StringChar) {
    match sc
    case Plain(c) => c as int >= 0x20 && c != '"' && c != '\\'
    case Escaped(c) => c in {'"', '\\', '/', 'b', 'f', 'n', 'r', 't'}
    case Unicode(h) => |h| == 4 && forall c :: c in h ==> IsHex(c)
  }

  /** Section 2: insignificant whitespace. */
  predicate IsWs(s: string) {
    forall c :: c in s ==> c in {' ', '\t', '\n', '\r'}
  }

  /** Section 3 literals and section 6 numbers are words over these characters. */
  predicate IsAtomChar(c: char) {
    'a' <= c <= 'z' || 'A' <= c <= 'Z' || '0' <= c <= '9' || c == '+' || c == '-' || c == '.'
  }

  /** Concrete syntax trees of JSON texts: sections 4 (objects), 5 (arrays) and 7 (strings), with the whitespace
      written out. Atoms cover numbers and the literal names. */
  datatype Value =
    | Atom(text: string)
    | Str(chars: seq<StringChar>)
    | Arr(items: Items)
    | Obj(members: Members)

  datatype Items =
    | NoItems(ws: string)
    | LastItem(before: string, value: Value, after: string)
    | MoreItems(before: string, value: Value, after: string, rest: Items)

  datatype Members =
    | NoMembers(ws: string)
    | LastMember(before: string, key: seq<StringChar>, mid: string, mid2: string, value: Value, after: string)
    | MoreMembers(before: string, key: seq<StringChar>, mid: string, mid2: string, value: Value, after: string,
                  rest: Members)

  predicate LegalString(chars: seq<StringChar>) {
    forall sc :: sc in chars ==> LegalChar(sc)
  }

  predicate Legal(v: Value) {
    match v
    case Atom(t) => t != "" && forall c :: c in t ==> IsAtomChar(c)
    case Str(chars) => LegalString(chars)
    case Arr(items) => LegalItems(items)
    case Obj(members) => LegalMembers(members)
  }

  predicate LegalItems(items: Items) {
    match items
    case NoItems(ws) => IsWs(ws)
    case LastItem(b, v, a) => IsWs(b) && Legal(v) && IsWs(a)
    case MoreItems(b, v, a, rest) => IsWs(b) && Legal(v) && IsWs(a) && !rest.NoItems? && LegalItems(rest)
  }

  predicate LegalMembers(members: Members) {
    match members
    case NoMembers(ws) => IsWs(ws)
    case LastMember(b, k, m, n, v, a) => IsWs(b) && LegalString(k) && IsWs(m) && IsWs(n) && Legal(v) && IsWs(a)
    case MoreMembers(b, k, m, n, v, a, rest) =>
      IsWs(b) && LegalString(k) && IsWs(m) && IsWs(n) && Legal(v) && IsWs(a) && !rest.NoMembers? && LegalMembers(rest)
  }

  function RenderChar(sc: StringChar): string {
    match sc
    case Plain(c) => [c]
    case Escaped(c) => ['\\', c]
    case Unicode(h) => ['\\', 'u'] + h
  }

  function RenderChars(chars: seq<StringChar>): string {
    if chars == [] then "" else RenderChar(chars[0]) + RenderChars(chars[1..])
  }

  function RenderString(chars: seq<StringChar>): string {
    ['"'] + RenderChars(chars) + ['"']
  }

  function Render(v: Value): string {
    match v
    case Atom(t) => t
    case Str(chars) => RenderString(chars)
    case Arr(items) => ['['] + RenderItems(items) + [']']
    case Obj(members) => ['{'] + RenderMembers(members) + ['}']
  }

  function RenderItems(items: Items): string {
    match items
    case NoItems(ws) => ws
    case LastItem(b, v, a) => b + Render(v) + a
    case MoreItems(b, v, a, rest) => b + Render(v) + a + [','] + RenderItems(rest)
  }

  function RenderMembers(members: Members): string {
    match members
    case NoMembers(ws) => ws
    case LastMember(b, k, m, n, v, a) => b + RenderString(k) + m + [':'] + n + Render(v) + a
    case MoreMembers(b, k, m, n, v, a, rest) =>
      b + RenderString(k) + m + [':'] + n + Render(v) + a + [','] + RenderMembers(rest)
  }

  // --------------------------------------------------------- neutral pieces

  /** Reading `piece` in state s reaches state t without the loop returning. */
  ghost predicate Passes(piece: string, opener: char, s: Scan, t: Scan)
    decreases |piece|
  {
    if piece == "" then s == t
    else !Closes(s, piece[0], opener) && Passes(piece[1..], opener, Step(s, piece[0], opener), t)
  }

  lemma PassesOne(c: char, opener: char, s: Scan)
    requires !Closes(s, c, opener)
    ensures Passes([c], opener, s, Step(s, c, opener))
  {
    assert [c][1..] == "" && [c][0] == c;
  }

  lemma PassesCons(c: char, rest: string, opener: char, s: Scan, t: Scan)
    requires !Closes(s, c, opener) && Passes(rest, opener, Step(s, c, opener), t)
    ensures Passes([c] + rest, opener, s, t)
  {
    PassesOne(c, opener, s);
    PassesConcat([c], rest, opener, s, Step(s, c, opener), t);
  }

  lemma {:induction false} PassesConcat(a: string, b: string, opener: char, s: Scan, t: Scan, u: Scan)
    requires Passes(a, opener, s, t) && Passes(b, opener, t, u)
    ensures Passes(a + b, opener, s, u)
    decreases |a|
  {
    if a == "" {
      assert a + b == b;
    } else {
      assert (a + b)[0] == a[0] && (a + b)[1..] == a[1..] + b;
      PassesConcat(a[1..], b, opener, Step(s, a[0], opener), t, u);
    }
  }

  lemma {:induction false} PassesEnd(text: string, index: nat, piece: string, opener: char, s: Scan, t: Scan)
    requires Passes(piece, opener, s, t)
    requires index + |piece| <= |text| && text[index..index + |piece|] == piece
    ensures EndFrom(text, index, opener, s) == EndFrom(text, index + |piece|, opener, t)
    decreases |piece|
  {
    if piece != "" {
      assert text[index] == text[index..index + |piece|][0] == piece[0];
      assert text[index + 1..index + |piece|] == piece[1..];
      PassesEnd(text, index + 1, piece[1..], opener, Step(s, piece[0], opener), t);
    }
  }

  /** Outside strings at depth d, with d at least one, a neutral piece changes nothing. */
  ghost predicate Neutral(piece: string, opener: char) {
    forall d: int :: d >= 1 ==> Passes(piece, opener, Scan(d, false, false), Scan(d, false, false))
  }

  lemma NeutralConcat(a: string, b: string, opener: char)
    requires Neutral(a, opener) && Neutral(b, opener)
    ensures Neutral(a + b, opener)
  {
    forall d: int | d >= 1 ensures Passes(a + b, opener, Scan(d, false, false), Scan(d, false, false)) {
      var s := Scan(d, false, false);
      PassesConcat(a, b, opener, s, s, s);
    }
  }

  predicate Inert(c: char) {
    c != '"' && c != '{' && c != '}' && c != '[' && c != ']'
  }

  lemma {:induction false} InertIsNeutral(piece: string, opener: char)
    requires IsOpener(opener) && forall c :: c in piece ==> Inert(c)
    ensures Neutral(piece, opener)
    decreases |piece|
  {
    if piece != "" {
      InertIsNeutral(piece[1..], opener);
      assert Inert(piece[0]) && piece == [piece[0]] + piece[1..];
      forall d: int | d >= 1 ensures Passes(piece, opener, Scan(d, false, false), Scan(d, false, false)) {
        PassesCons(piece[0], piece[1..], opener, Scan(d, false, false), Scan(d, false, false));
      }
    }
  }

  /** Inside a string no escape sequence or plain character ends it, whatever brackets it shows. */
  lemma CharPasses(sc: StringChar, opener: char, s: Scan)
    requires LegalChar(sc) && s.inString && !s.escape
    ensures Passes(RenderChar(sc), opener, s, s)
  {
    var t := s.(escape := true);
    match sc
    case Plain(c) => PassesOne(c, opener, s);
    case Escaped(c) =>
      PassesOne(c, opener, t);
      PassesCons('\\', [c], opener, s, s);
      assert ['\\'] + [c] == RenderChar(sc);
    case Unicode(h) =>
      HexPasses(h, opener, s);
      PassesCons('u', h, opener, t, s);
      PassesCons('\\', ['u'] + h, opener, s, s);
      assert ['\\'] + (['u'] + h) == RenderChar(sc);
  }

  lemma {:induction false} HexPasses(h: string, opener: char, s: Scan)
    requires (forall c :: c in h ==> IsHex(c)) && s.inString && !s.escape
    ensures Passes(h, opener, s, s)
    decreases |h|
  {
    if h != "" {
      HexPasses(h[1..], opener, s);
      assert h[0] in h && IsHex(h[0]) && Step(s, h[0], opener) == s;
      PassesCons(h[0], h[1..], opener, s, s);
      assert h == [h[0]] + h[1..];
    }
  }

  lemma {:induction false} CharsPass(chars: seq<StringChar>, opener: char, s: Scan)
    requires LegalString(chars) && s.inString && !s.escape
    ensures Passes(RenderChars(chars), opener, s, s)
    decreases |chars|
  {
    if chars != [] {
      CharPasses(chars[0], opener, s);
      CharsPass(chars[1..], opener, s);
      PassesConcat(RenderChar(chars[0]), RenderChars(chars[1..]), opener, s, s, s);
    }
  }

  lemma StringIsNeutral(chars: seq<StringChar>, opener: char)
    requires LegalString(chars) && IsOpener(opener)
    ensures Neutral(RenderString(chars), opener)
  {
    forall d: int | d >= 1 ensures Passes(RenderString(chars), opener, Scan(d, false, false), Scan(d, false, false)) {
      var s, t := Scan(d, false, false), Scan(d, true, false);
      CharsPass(chars, opener, t);
      PassesOne('"', opener, s);
      PassesOne('"', opener, t);
      PassesConcat(['"'], RenderChars(chars), opener, s, t, t);
      PassesConcat(['"'] + RenderChars(chars), ['"'], opener, s, t, s);
    }
  }

  /** Balanced brackets around a neutral body are neutral: counted ones go up and come back, the others are inert. */
  lemma BracketsAreNeutral(open: char, body: string, opener: char)
    requires IsOpener(open) && IsOpener(opener) && Neutral(body, opener)
    ensures Neutral([open] + body + [CloserOf(open)], opener)
  {
    forall d: int | d >= 1
      ensures Passes([open] + body + [CloserOf(open)], opener, Scan(d, false, false), Scan(d, false, false))
    {
      var s := Scan(d, false, false);
      var t := if open == opener then Scan(d + 1, false, false) else s;
      PassesOne(open, opener, s);
      PassesOne(CloserOf(open), opener, t);
      assert Passes(body, opener, t, t);
      PassesConcat([open], body, opener, s, t, t);
      PassesConcat([open] + body, [CloserOf(open)], opener, s, t, s);
    }
  }

  lemma WsIsNeutral(ws: string, opener: char)
    requires IsWs(ws) && IsOpener(opener)
    ensures Neutral(ws, opener)
  {
    InertIsNeutral(ws, opener);
  }

  lemma {:induction false} ValueIsNeutral(v: Value, opener: char)
    requires Legal(v) && IsOpener(opener)
    ensures Neutral(Render(v), opener)
    decreases v
  {
    match v
    case Atom(t) => InertIsNeutral(t, opener);
    case Str(chars) => StringIsNeutral(chars, opener);
    case Arr(items) =>
      ItemsAreNeutral(items, opener);
      BracketsAreNeutral('[', RenderItems(items), opener);
    case Obj(members) =>
      MembersAreNeutral(members, opener);
      BracketsAreNeutral('{', RenderMembers(members), opener);
  }

  lemma PaddedIsNeutral(before: string, v: Value, after: string, opener: char)
    requires IsWs(before) && IsWs(after) && IsOpener(opener) && Neutral(Render(v), opener)
    ensures Neutral(before + Render(v) + after, opener)
  {
    WsIsNeutral(before, opener);
    WsIsNeutral(after, opener);
    NeutralConcat(before, Render(v), opener);
    NeutralConcat(before + Render(v), after, opener);
  }

  lemma {:induction false} ItemsAreNeutral(items: Items, opener: char)
    requires LegalItems(items) && IsOpener(opener)
    ensures Neutral(RenderItems(items), opener)
    decreases items
  {
    match items
    case NoItems(ws) => WsIsNeutral(ws, opener);
    case LastItem(b, v, a) =>
      ValueIsNeutral(v, opener);
      PaddedIsNeutral(b, v, a, opener);
    case MoreItems(b, v, a, rest) =>
      ValueIsNeutral(v, opener);
      PaddedIsNeutral(b, v, a, opener);
      ItemsAreNeutral(rest, opener);
      InertIsNeutral([','], opener);
      NeutralConcat(b + Render(v) + a, [','], opener);
      NeutralConcat(b + Render(v) + a + [','], RenderItems(rest), opener);
  }

  lemma KeyedIsNeutral(b: string, k: seq<StringChar>, m: string, n: string, v: Value, a: string, opener: char)
    requires IsWs(b) && LegalString(k) && IsWs(m) && IsWs(n) && IsWs(a) && IsOpener(opener)
             && Neutral(Render(v), opener)
    ensures Neutral(b + RenderString(k) + m + [':'] + n + Render(v) + a, opener)
  {
    WsIsNeutral(b, opener);
    StringIsNeutral(k, opener);
    WsIsNeutral(m, opener);
    InertIsNeutral([':'], opener);
    WsIsNeutral(n, opener);
    WsIsNeutral(a, opener);
    NeutralConcat(b, RenderString(k), opener);
    NeutralConcat(b + RenderString(k), m, opener);
    NeutralConcat(b + RenderString(k) + m, [':'], opener);
    NeutralConcat(b + RenderString(k) + m + [':'], n, opener);
    NeutralConcat(b + RenderString(k) + m + [':'] + n, Render(v), opener);
    NeutralConcat(b + RenderString(k) + m + [':'] + n + Render(v), a, opener);
  }

  lemma {:induction false} MembersAreNeutral(members: Members, opener: char)
    requires LegalMembers(members) && IsOpener(opener)
    ensures Neutral(RenderMembers(members), opener)
    decreases members
  {
    match members
    case NoMembers(ws) => WsIsNeutral(ws, opener);
    case LastMember(b, k, m, n, v, a) =>
      ValueIsNeutral(v, opener);
      KeyedIsNeutral(b, k, m, n, v, a, opener);
    case MoreMembers(b, k, m, n, v, a, rest) =>
      ValueIsNeutral(v, opener);
      KeyedIsNeutral(b, k, m, n, v, a, opener);
      MembersAreNeutral(rest, opener);
      InertIsNeutral([','], opener);
      var front := b + RenderString(k) + m + [':'] + n + Render(v) + a;
      NeutralConcat(front, [','], opener);
      NeutralConcat(front + [','], RenderMembers(rest), opener);
  }

  // ------------------------------------------------------------ main results

  predicate IsContainer(v: Value) {
    v.Arr? || v.Obj?
  }

  lemma ContainerShape(v: Value) returns (open: char, body: string)
    requires Legal(v) && IsContainer(v)
    ensures IsOpener(open) && Render(v) == [open] + body + [CloserOf(open)] && Neutral(body, open)
  {
    match v
    case Arr(items) =>
      open, body := '[', RenderItems(items);
      ItemsAreNeutral(items, open);
    case Obj(members) =>
      open, body := '{', RenderMembers(members);
      MembersAreNeutral(members, open);
  }

  /** Started on the opening bracket of any object or array text, with anything before and after it, the scanner stops
      exactly behind the matching bracket. */
  lemma FindsMatchingEnd(before: string, v: Value, after: string)
    requires Legal(v) && IsContainer(v)
    ensures var text := before + Render(v) + after;
            EndFrom(text, |before|, text[|before|], START) == |before| + |Render(v)|
  {
    hide Render, EndFrom;
    var open, body := ContainerShape(v);
    EndOfShape(before, open, body, after);
  }

  lemma EndOfShape(before: string, open: char, body: string, after: string)
    requires IsOpener(open) && Neutral(body, open)
    ensures var text := before + ([open] + body + [CloserOf(open)]) + after;
            EndFrom(text, |before|, text[|before|], START) == |before| + |body| + 2
  {
    hide EndFrom, Neutral;
    var text, i := before + ([open] + body + [CloserOf(open)]) + after, |before|;
    assert text[i] == open && text[i + 1 + |body|] == CloserOf(open);
    assert text[i + 1..i + 1 + |body|] == body;
    EndOfBody(text, i, open, body);
  }

  lemma EndOfBody(text: string, i: nat, open: char, body: string)
    requires IsOpener(open) && Neutral(body, open) && i + |body| + 2 <= |text|
    requires text[i] == open && text[i + 1..i + 1 + |body|] == body && text[i + 1 + |body|] == CloserOf(open)
    ensures EndFrom(text, i, open, START) == i + |body| + 2
  {
    var one := Scan(1, false, false);
    assert Step(START, open, open) == one;
    PassesEnd(text, i + 1, body, open, one, one);
  }

  // -------------------------------------------- the slice that uses the scanner

  /** `str.find` for one character. */
  function FindChar(text: string, c: char): (r: int)
    ensures -1 <= r < |text|
    ensures r >= 0 ==> text[r] == c && forall i :: 0 <= i < r ==> text[i] != c
    ensures r < 0 ==> c !in text
  {
    if text == "" then -1
    else if text[0] == c then 0
    else
      var r := FindChar(text[1..], c);
      assert forall i :: 0 < i < |text| ==> text[i] == text[1..][i - 1];
      if r < 0 then -1 else r + 1
  }

  /** The part of `extract_json_text` after stripping and unfencing: surrounding prose is cut away, and what is left
      must be accepted by `json.loads`, a parameter here; None stands for the error it raises otherwise. */
  method OutermostJson(text: string, loads: string -> bool) returns (json: Option<string>)
    ensures text != "" && IsOpener(text[0]) ==> json == Checked(text, loads)
    ensures forall before, v, after ::
              text == before + Render(v) + after && Prose(before) && Legal(v) && IsContainer(v) ==>
                json == Checked(Render(v), loads)
    ensures (forall c :: c in text ==> !IsOpener(c)) ==> json == Checked(text, loads)
    ensures json.Some? ==> loads(json.value)
  {
    var candidate := Candidate(text);
    json := if loads(candidate) then Some(candidate) else None;
  }

  function Checked(text: string, loads: string -> bool): Option<string> {
    if loads(text) then Some(text) else None
  }

  method Candidate(text: string) returns (json: string)
    ensures text != "" && IsOpener(text[0]) ==> json == text
    ensures forall before, v, after ::
              text == before + Render(v) + after && Prose(before) && Legal(v) && IsContainer(v) ==> json == Render(v)
    ensures (forall c :: c in text ==> !IsOpener(c)) ==> json == text
  {
    json := text;
    if text == "" || !IsOpener(text[0]) {
      var objStart, arrStart := FindChar(text, '{'), FindChar(text, '[');
      if objStart >= 0 || arrStart >= 0 {
        var start := if objStart < 0 then arrStart else if arrStart < 0 then objStart
                     else if objStart < arrStart then objStart else arrStart;
        assert text[start] in text && IsOpener(text[start]);
        var end := FindJsonEnd(text, start);
        if end > start {
          json := text[start..end];
        }
        forall before, v, after | text == before + Render(v) + after && Prose(before) && Legal(v) && IsContainer(v)
          ensures json == Render(v)
        {
          SliceIsValue(text, before, v, after, start);
        }
      }
    }
    forall before, v, after | text == before + Render(v) + after && Prose(before) && Legal(v) && IsContainer(v)
      ensures !IsOpener(text[0]) && exists c :: c in text && IsOpener(c)
    {
      var open, body := ContainerShape(v);
      assert text[0] == before[0] && before[0] in before;
      assert text[|before|] == open && open in text;
    }
  }

  /** Non-empty text without opening brackets. */
  predicate Prose(before: string) {
    before != "" && forall c :: c in before ==> !IsOpener(c)
  }

  lemma SliceIsValue(text: string, before: string, v: Value, after: string, start: nat)
    requires text == before + Render(v) + after && Prose(before) && Legal(v) && IsContainer(v)
    requires start < |text| && IsOpener(text[start]) && forall i :: 0 <= i < start ==> !IsOpener(text[i])
    ensures start == |before|
    ensures start <= EndFrom(text, start, text[start], START) <= |text|
    ensures text[start..EndFrom(text, start, text[start], START)] == Render(v)
  {
    var open, body := ContainerShape(v);
    assert text[|before|] == open;
    assert start <= |before|;
    assert forall i :: 0 <= i < |before| ==> text[i] == before[i] && before[i] in before;
    FindsMatchingEnd(before, v, after);
  }
}
