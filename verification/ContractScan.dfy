/**
  What the backward scan finds. JSON object texts (RFC 8259) are written here
  as values with every choice of whitespace. The scan tells quotes by the
  single character before them, so a string that ends in an escaped backslash
  swaps inside and outside for everything on its left, up to the next such
  string. It finds a message's last object exactly when there is an even
  number of these strings and the braces it sees are balanced.
 */
module ContractScan {
  import opened Common
  import opened ResultContract

  // ── JSON text ─────────────────────────────────────────────────────────

  /** One character of a string, section 7 of RFC 8259. */
  datatype JsonChar = Plain(c: char) | Escape(c: char) | Unicode(hex: string)

  predicate IsHex(c: char) {
    '0' <= c <= '9' || 'a' <= c <= 'f' || 'A' <= c <= 'F'
  }

  predicate CharOk(j: JsonChar) {
    match j
    case Plain(c) => c >= ' ' && c != '"' && c != '\\'
    case Escape(c) => c in {'"', '\\', '/', 'b', 'f', 'n', 'r', 't'}
    case Unicode(hex) => |hex| == 4 && forall i :: 0 <= i < 4 ==> IsHex(hex[i])
  }

  function ShowChar(j: JsonChar): string {
    match j
    case Plain(c) => [c]
    case Escape(c) => ['\\', c]
    case Unicode(hex) => ['\\', 'u'] + hex
  }

  function ShowBody(body: seq<JsonChar>): string {
    if body == [] then "" else ShowBody(body[..|body| - 1]) + ShowChar(body[|body| - 1])
  }

  function Quoted(body: seq<JsonChar>): string {
    ['"'] + ShowBody(body) + ['"']
  }

  predicate BodyOk(body: seq<JsonChar>) {
    forall i :: 0 <= i < |body| ==> CharOk(body[i])
  }

  /** The strings whose closing quote the scan takes for an escaped one. */
  predicate EndsInBackslash(body: seq<JsonChar>) {
    body != [] && body[|body| - 1] == Escape('\\')
  }

  predicate IsGap(c: char) {
    c in {' ', '\t', '\n', '\r'}
  }

  predicate GapOk(gap: string) {
    forall i :: 0 <= i < |gap| ==> IsGap(gap[i])
  }

  /** Digits, letters and signs: a number, `true`, `false` or `null`. */
  predicate ScalarOk(s: string) {
    forall i :: 0 <= i < |s| ==> s[i] !in {'"', '\\', '{', '}'}
  }

  datatype Json =
    | Scalar(s: string)
    | Text(body: seq<JsonChar>)
    | Array(items: Items)
    | Object(members: Members)

  datatype Items = NoItems(gap: string) | Item(before: string, value: Json, after: string, more: Items)

  datatype Members =
    | NoMembers(gap: string)
    | Member(before: string, name: seq<JsonChar>, colon: string, gap: string, value: Json, after: string, more: Members)

  predicate JsonOk(j: Json) {
    match j
    case Scalar(s) => ScalarOk(s)
    case Text(body) => BodyOk(body)
    case Array(items) => ItemsOk(items)
    case Object(members) => MembersOk(members)
  }

  predicate ItemsOk(items: Items) {
    match items
    case NoItems(gap) => GapOk(gap)
    case Item(before, value, after, more) => GapOk(before) && JsonOk(value) && GapOk(after) && ItemsOk(more)
  }

  predicate MembersOk(members: Members) {
    match members
    case NoMembers(gap) => GapOk(gap)
    case Member(before, name, colon, gap, value, after, more) =>
      GapOk(before) && BodyOk(name) && GapOk(colon) && GapOk(gap) && JsonOk(value) && GapOk(after) && MembersOk(more)
  }

  function Show(j: Json): string {
    match j
    case Scalar(s) => s
    case Text(body) => Quoted(body)
    case Array(items) => "[" + ShowItems(items) + "]"
    case Object(members) => "{" + ShowMembers(members) + "}"
  }

  function ShowItems(items: Items): string {
    match items
    case NoItems(gap) => gap
    case Item(before, value, after, more) =>
      before + Show(value) + after + (if more.Item? then "," else "") + ShowItems(more)
  }

  function ShowMembers(members: Members): string {
    match members
    case NoMembers(gap) => gap
    case Member(before, name, colon, gap, value, after, more) =>
      before + Quoted(name) + colon + ":" + gap + Show(value) + after
      + (if more.Member? then "," else "") + ShowMembers(more)
  }

  // ── what the scan sees of it ──────────────────────────────────────────

  /** How many strings end in an escaped backslash. */
  function MisreadJson(j: Json): nat {
    match j
    case Scalar(_) => 0
    case Text(body) => if EndsInBackslash(body) then 1 else 0
    case Array(items) => MisreadItems(items)
    case Object(members) => MisreadMembers(members)
  }

  function MisreadItems(items: Items): nat {
    match items
    case NoItems(_) => 0
    case Item(_, value, _, more) => MisreadJson(value) + MisreadItems(more)
  }

  function MisreadMembers(members: Members): nat {
    match members
    case NoMembers(_) => 0
    case Member(_, name, _, _, value, _, more) =>
      (if EndsInBackslash(name) then 1 else 0) + MisreadJson(value) + MisreadMembers(more)
  }

  /** Whether the scan takes itself to be inside a string, after `misread` such strings. */
  function Flip(q: bool, misread: nat): bool {
    q != (misread % 2 == 1)
  }

  predicate IsBrace(c: char) {
    c == '{' || c == '}'
  }

  function Seen(q: bool, c: char): string {
    if !q && IsBrace(c) then [c] else ""
  }

  function Braces(t: string): string {
    if t == "" then "" else Braces(t[..|t| - 1]) + Seen(false, t[|t| - 1])
  }

  /**
    The braces the scan counts in a text it enters, from the right, with `q`:
    those of the object's own structure where it stands right, those in the
    strings where it stands wrong.
   */
  function ExposedText(q: bool, body: seq<JsonChar>): string {
    if q != EndsInBackslash(body) then Braces(ShowBody(body)) else ""
  }

  function ExposedJson(q: bool, j: Json): string
    decreases j
  {
    match j
    case Scalar(_) => ""
    case Text(body) => ExposedText(q, body)
    case Array(items) => ExposedItems(q, items)
    case Object(members) =>
      Seen(Flip(q, MisreadMembers(members)), '{') + (ExposedMembers(q, members) + Seen(q, '}'))
  }

  function ExposedItems(q: bool, items: Items): string
    decreases items
  {
    match items
    case NoItems(_) => ""
    case Item(_, value, _, more) =>
      ExposedJson(Flip(q, MisreadItems(more)), value) + ExposedItems(q, more)
  }

  function ExposedMembers(q: bool, members: Members): string
    decreases members
  {
    match members
    case NoMembers(_) => ""
    case Member(_, name, _, _, value, _, more) =>
      var q' := Flip(q, MisreadMembers(more));
      ExposedText(Flip(q', MisreadJson(value)), name) + (ExposedJson(q', value) + ExposedMembers(q, more))
  }

  /** As many of each brace, and from no point on more opening than closing ones. */
  predicate Balanced(e: string) {
    && multiset(e)['{'] == multiset(e)['}']
    && forall k :: 0 <= k <= |e| ==> multiset(e[k..])['{'] <= multiset(e[k..])['}']
  }

  // ── counting braces from the right ────────────────────────────────────

  /** The depth on the left of `e`, entered from the right at `depth`; none when the scan stops inside. */
  function Walk(e: string, depth: int): Option<int> {
    if e == "" then Some(depth)
    else
      var c, rest := e[|e| - 1], e[..|e| - 1];
      if c == '}' then Walk(rest, depth + 1)
      else if c == '{' then (if depth == 1 then None else Walk(rest, depth - 1))
      else Walk(rest, depth)
  }

  lemma {:induction false} WalkOn(a: string, b: string, depth: int)
    ensures Walk(a + b, depth) == match Walk(b, depth) case None => None case Some(d) => Walk(a, d)
    decreases |b|
  {
    if b == "" {
      assert a + b == a;
    } else {
      var n := |b| - 1;
      assert (a + b)[..|a + b| - 1] == a + b[..n];
      WalkOn(a, b[..n], if b[n] == '}' then depth + 1 else if b[n] == '{' then depth - 1 else depth);
    }
  }

  /** No suffix of `e` takes the depth down to nothing. */
  ghost predicate Above(e: string, depth: int) {
    forall k :: 0 <= k <= |e| ==> multiset(e[k..])['{'] < depth + multiset(e[k..])['}']
  }

  lemma {:induction false} AboveFirst(e: string, depth: int)
    requires e != "" && depth >= 1
    ensures var c, rest := e[|e| - 1], e[..|e| - 1];
      Above(e, depth) <==>
        if c == '}' then Above(rest, depth + 1)
        else if c == '{' then depth > 1 && Above(rest, depth - 1)
        else Above(rest, depth)
  {
    var n := |e| - 1;
    var c, rest := e[n], e[..n];
    var next := if c == '}' then depth + 1 else if c == '{' then depth - 1 else depth;
    assert e[n + 1..] == "";
    forall k | 0 <= k <= n
      ensures multiset(e[k..])['{'] + multiset(rest[k..])['}'] + next
        == multiset(rest[k..])['{'] + multiset(e[k..])['}'] + depth
    {
      assert e[k..] == rest[k..] + [c];
    }
    assert rest[n..] == "";
    assert multiset(rest[n..])['{'] == 0;
  }

  lemma {:induction false} WalkCounts(e: string, depth: int)
    requires depth >= 1
    ensures Walk(e, depth).Some? <==> Above(e, depth)
    ensures Walk(e, depth).Some? ==>
      Walk(e, depth).value == depth + multiset(e)['}'] - multiset(e)['{']
  {
    if e != "" {
      var n := |e| - 1;
      AboveFirst(e, depth);
      assert e == e[..n] + [e[n]];
      if e[n] != '{' || depth > 1 {
        WalkCounts(e[..n], if e[n] == '}' then depth + 1 else if e[n] == '{' then depth - 1 else depth);
      }
    } else {
      assert e[0..] == "";
    }
  }

  lemma {:induction false} BalancedWalk(e: string)
    ensures Balanced(e) <==> Walk(e, 1) == Some(1)
  {
    WalkCounts(e, 1);
    if Balanced(e) { assert Above(e, 1); }
    if Above(e, 1) {
      forall k | 0 <= k <= |e|
        ensures multiset(e[k..])['{'] <= multiset(e[k..])['}']
      {
        assert multiset(e[k..])['{'] < 1 + multiset(e[k..])['}'];
      }
    }
  }

  // ── the scan over a stretch of text ───────────────────────────────────

  /** Down to `lo` the scan counts the braces `e` and then stands at `q'`, or stops on the way as they say. */
  ghost predicate ReadsAt(s: string, lo: nat, hi: nat, depth: int, q: bool, q': bool, e: string)
    requires lo <= hi <= |s|
  {
    match Walk(e, depth)
    case None => Scan(s, hi, depth, q).Some? && Scan(s, hi, depth, q).value >= lo
    case Some(d) => Scan(s, hi, depth, q) == Scan(s, lo, d, q')
  }

  ghost predicate Reads(s: string, lo: nat, hi: nat, q: bool, q': bool, e: string) {
    lo <= hi <= |s| && forall depth :: ReadsAt(s, lo, hi, depth, q, q', e)
  }

  lemma {:induction false} ReadsOn(
    s: string, lo: nat, mid: nat, hi: nat, q: bool, q': bool, q'': bool, a: string, b: string)
    requires Reads(s, mid, hi, q, q', b) && Reads(s, lo, mid, q', q'', a)
    ensures Reads(s, lo, hi, q, q'', a + b)
  {
    hide Scan;
    forall depth
      ensures ReadsAt(s, lo, hi, depth, q, q'', a + b)
    {
      WalkOn(a, b, depth);
      assert ReadsAt(s, mid, hi, depth, q, q', b);
      if Walk(b, depth).Some? { assert ReadsAt(s, lo, mid, Walk(b, depth).value, q', q'', a); }
    }
  }

  lemma {:induction false} ReadsNone(s: string, lo: nat, q: bool)
    requires lo <= |s|
    ensures Reads(s, lo, lo, q, q, "")
  {
    forall depth
      ensures ReadsAt(s, lo, lo, depth, q, q, "")
    {
    }
  }

  lemma {:induction false} ReadsOne(s: string, lo: nat, q: bool)
    requires lo < |s|
    ensures Reads(s, lo, lo + 1, q, q != Delimits(s, lo), Seen(q, s[lo]))
  {
    var hi, q', e := lo + 1, q != Delimits(s, lo), Seen(q, s[lo]);
    forall depth
      ensures ReadsAt(s, lo, hi, depth, q, q', e)
    {
      OneRead(s, lo, depth, q);
    }
  }

  lemma {:induction false} OneRead(s: string, lo: nat, depth: int, q: bool)
    requires lo < |s|
    ensures ReadsAt(s, lo, lo + 1, depth, q, q != Delimits(s, lo), Seen(q, s[lo]))
  {
    var c := s[lo];
    if !q && IsBrace(c) {
      assert [c][..0] == "";
      assert Walk([c], depth) == if c == '}' then Some(depth + 1) else if depth == 1 then None else Some(depth - 1);
    }
  }

  /** Where no quote delimits, a scan outside strings sees every brace and one inside sees none. */
  lemma {:induction false} ReadsPlain(s: string, lo: nat, hi: nat, q: bool)
    requires lo <= hi <= |s| && forall i :: lo <= i < hi ==> !Delimits(s, i)
    ensures Reads(s, lo, hi, q, q, if q then "" else Braces(s[lo..hi]))
    decreases hi
  {
    if lo == hi {
      ReadsNone(s, lo, q);
    } else {
      var front := if q then "" else Braces(s[lo..hi - 1]);
      ReadsPlain(s, lo, hi - 1, q);
      ReadsOne(s, hi - 1, q);
      assert !Delimits(s, hi - 1);
      hide Reads;
      ReadsOn(s, lo, hi - 1, hi, q, q, q, front, Seen(q, s[hi - 1]));
      assert s[lo..hi][..hi - 1 - lo] == s[lo..hi - 1];
      assert front + Seen(q, s[hi - 1]) == if q then "" else Braces(s[lo..hi]);
    }
  }

  predicate Lies(s: string, lo: nat, t: string) {
    lo + |t| <= |s| && forall i :: 0 <= i < |t| ==> s[lo + i] == t[i]
  }

  lemma Within(s: string, lo: nat, a: string, b: string)
    requires Lies(s, lo, a + b)
    ensures Lies(s, lo, a) && Lies(s, lo + |a|, b)
    ensures a != "" ==> s[lo] == a[0] && s[lo + |a| - 1] == a[|a| - 1]
    ensures b != "" ==> s[lo + |a|] == b[0] && s[lo + |a| + |b| - 1] == b[|b| - 1]
  {
    var t := a + b;
    forall i | 0 <= i < |a|
      ensures s[lo + i] == a[i]
    {
      assert t[i] == a[i];
    }
    forall i | 0 <= i < |b|
      ensures s[lo + |a| + i] == b[i]
    {
      assert t[|a| + i] == b[i];
    }
  }

  lemma {:induction false} NoBraces(t: string)
    requires forall i :: 0 <= i < |t| ==> !IsBrace(t[i])
    ensures Braces(t) == ""
  {
    if t != "" { NoBraces(t[..|t| - 1]); }
  }

  /** Text between strings, without a brace, changes nothing. */
  lemma {:induction false} ReadsNeutral(s: string, lo: nat, mid: nat, t: string, q: bool)
    requires ScalarOk(t) && Lies(s, lo, t) && mid == lo + |t|
    ensures Reads(s, lo, mid, q, q, "")
  {
    assert s[lo..mid] == t;
    NoBraces(t);
    forall i | lo <= i < mid
      ensures !Delimits(s, i)
    {
      assert s[lo + (i - lo)] == t[i - lo];
    }
    ReadsPlain(s, lo, mid, q);
  }

  lemma {:induction false} NeutralThen(s: string, lo: nat, mid: nat, hi: nat, t: string, q: bool, q': bool, e: string)
    requires ScalarOk(t) && Lies(s, lo, t) && mid == lo + |t| && Reads(s, mid, hi, q, q', e)
    ensures Reads(s, lo, hi, q, q', e)
  {
    hide Lies, ScalarOk;
    ReadsNeutral(s, lo, mid, t, q');
    hide Reads;
    ReadsOn(s, lo, mid, hi, q, q', q', "", e);
    assert "" + e == e;
  }

  // ── strings, read backwards ───────────────────────────────────────────

  /** Inside a string every quote follows a backslash, and the text ends in one only if an escaped backslash does. */
  lemma {:induction false} BodyQuotes(body: seq<JsonChar>)
    requires BodyOk(body)
    ensures forall i :: 0 <= i < |ShowBody(body)| && ShowBody(body)[i] == '"' ==> i > 0 && ShowBody(body)[i - 1] == '\\'
    ensures (ShowBody(body) != "" && ShowBody(body)[|ShowBody(body)| - 1] == '\\') <==> EndsInBackslash(body)
  {
    if body != [] {
      BodyQuotes(body[..|body| - 1]);
      var last := body[|body| - 1];
      assert CharOk(last);
      assert last.Unicode? ==> IsHex(last.hex[0]) && IsHex(last.hex[1]) && IsHex(last.hex[2]) && IsHex(last.hex[3]);
    }
  }

  /** Where the parts of a quoted string lie. */
  lemma {:induction false} QuotedParts(s: string, lo: nat, body: seq<JsonChar>)
    requires Lies(s, lo, Quoted(body))
    ensures var hi := lo + |Quoted(body)|;
      hi == lo + |ShowBody(body)| + 2 && s[lo] == '"' && s[hi - 1] == '"' && Lies(s, lo + 1, ShowBody(body))
  {
    Within(s, lo, ['"'] + ShowBody(body), ['"']);
    Within(s, lo, ['"'], ShowBody(body));
  }

  /** Which quotes of a string the scan takes for delimiters. */
  lemma {:induction false} QuotedDelimits(s: string, lo: nat, body: seq<JsonChar>)
    requires BodyOk(body) && Lies(s, lo, Quoted(body)) && (lo == 0 || s[lo - 1] != '\\')
    ensures var hi := lo + |Quoted(body)|;
      && lo + 2 <= hi && Delimits(s, lo)
      && (Delimits(s, hi - 1) <==> !EndsInBackslash(body))
      && (forall i :: lo < i < hi - 1 ==> !Delimits(s, i))
      && s[hi - 1] == '"'
  {
    BodyQuotes(body);
    QuotedParts(s, lo, body);
    var inside := ShowBody(body);
    forall i | lo < i < lo + 1 + |inside|
      ensures !Delimits(s, i)
    {
      assert s[lo + 1 + (i - lo - 1)] == inside[i - lo - 1];
      if s[i] == '"' { assert s[lo + 1 + (i - lo - 2)] == inside[i - lo - 2]; }
    }
    if inside != "" { assert s[lo + 1 + (|inside| - 1)] == inside[|inside| - 1]; }
  }

  /** What is read after this position is not escaped by what stands before it. */
  predicate Clear(s: string, i: nat) {
    i <= |s| && (i == 0 || s[i - 1] != '\\')
  }

  lemma {:induction false} ClearAfter(s: string, lo: nat, t: string)
    requires Lies(s, lo, t) && ScalarOk(t) && (t == "" ==> Clear(s, lo))
    ensures Clear(s, lo + |t|)
  {
    if t != "" { assert s[lo + (|t| - 1)] == t[|t| - 1]; }
  }

  /** A string is read as one when its closing quote is; otherwise it swaps inside and outside. */
  lemma {:induction false} ReadsQuoted(s: string, lo: nat, hi: nat, body: seq<JsonChar>, q: bool)
    requires BodyOk(body) && Lies(s, lo, Quoted(body)) && hi == lo + |Quoted(body)| && Clear(s, lo)
    ensures Reads(s, lo, hi, q, Flip(q, if EndsInBackslash(body) then 1 else 0), ExposedText(q, body))
  {
    hide Reads, Quoted, Lies, Braces, ShowBody;
    QuotedDelimits(s, lo, body);
    QuotedText(s, lo, hi, body);
    var inside := if EndsInBackslash(body) then q else !q;
    ReadsPlain(s, lo + 1, hi - 1, inside);
    ReadsWrapped(s, lo, hi, q, inside, inside, if inside then "" else Braces(ShowBody(body)));
  }

  lemma {:induction false} QuotedText(s: string, lo: nat, hi: nat, body: seq<JsonChar>)
    requires Lies(s, lo, Quoted(body)) && hi == lo + |Quoted(body)|
    ensures lo + 2 <= hi <= |s| && s[lo] == '"' && s[lo + 1..hi - 1] == ShowBody(body)
  {
    QuotedParts(s, lo, body);
  }

  /** A text between two characters that are no braces. */
  lemma {:induction false} ReadsWrapped(s: string, lo: nat, hi: nat, q: bool, inner: bool, left: bool, e: string)
    requires lo + 2 <= hi <= |s| && !IsBrace(s[lo]) && !IsBrace(s[hi - 1])
    requires inner == (q != Delimits(s, hi - 1)) && Reads(s, lo + 1, hi - 1, inner, left, e)
    ensures Reads(s, lo, hi, q, left != Delimits(s, lo), e)
  {
    hide Reads, Delimits;
    ReadsOne(s, hi - 1, q);
    ReadsOne(s, lo, left);
    ReadsOn(s, lo + 1, hi - 1, hi, q, inner, left, e, "");
    assert e + "" == e;
    ReadsOn(s, lo, lo + 1, hi, q, left, left != Delimits(s, lo), "", e);
    assert "" + e == e;
  }

  // ── whole values ──────────────────────────────────────────────────────

  lemma FlipTwice(q: bool, m: nat, n: nat)
    ensures Flip(Flip(q, m), n) == Flip(q, n + m)
  {
  }

  lemma {:induction false} ReadsJson(s: string, lo: nat, hi: nat, j: Json, q: bool)
    requires JsonOk(j) && Lies(s, lo, Show(j)) && hi == lo + |Show(j)| && Clear(s, lo)
    ensures Reads(s, lo, hi, q, Flip(q, MisreadJson(j)), ExposedJson(q, j))
    decreases j, 0
  {
    hide Reads;
    match j
    case Scalar(t) => ReadsNeutral(s, lo, hi, t, q);
    case Text(body) => ReadsQuoted(s, lo, hi, body, q);
    case Array(items) => ReadsArray(s, lo, hi, items, q);
    case Object(members) => ReadsObject(s, lo, hi, members, q);
  }

  lemma {:induction false} Inside(s: string, lo: nat, open: char, t: string, close: char)
    requires Lies(s, lo, [open] + t + [close]) && open != '\\'
    ensures s[lo] == open && Lies(s, lo + 1, t) && s[lo + |t| + 1] == close && Clear(s, lo + 1)
  {
    Within(s, lo, [open] + t, [close]);
    Within(s, lo, [open], t);
  }

  lemma {:induction false} ReadsArray(s: string, lo: nat, hi: nat, items: Items, q: bool)
    requires ItemsOk(items) && Lies(s, lo, "[" + ShowItems(items) + "]") && hi == lo + |ShowItems(items)| + 2
    ensures Reads(s, lo, hi, q, Flip(q, MisreadItems(items)), ExposedItems(q, items))
    decreases items, 2
  {
    hide Reads;
    Inside(s, lo, '[', ShowItems(items), ']');
    ReadsItems(s, lo + 1, hi - 1, items, q);
    ReadsWrapped(s, lo, hi, q, q, Flip(q, MisreadItems(items)), ExposedItems(q, items));
  }

  lemma {:induction false} ReadsObject(s: string, lo: nat, hi: nat, members: Members, q: bool)
    requires MembersOk(members) && Lies(s, lo, "{" + ShowMembers(members) + "}")
    requires hi == lo + |ShowMembers(members)| + 2
    ensures Reads(s, lo, hi, q, Flip(q, MisreadMembers(members)), ExposedJson(q, Object(members)))
    decreases members, 2
  {
    hide Reads;
    Inside(s, lo, '{', ShowMembers(members), '}');
    ReadsMembers(s, lo + 1, hi - 1, members, q);
    var q', e := Flip(q, MisreadMembers(members)), ExposedMembers(q, members);
    ReadsOne(s, hi - 1, q);
    ReadsOne(s, lo, q');
    ReadsOn(s, lo + 1, hi - 1, hi, q, q, q', e, Seen(q, '}'));
    ReadsOn(s, lo, lo + 1, hi, q, q', q', Seen(q', '{'), e + Seen(q, '}'));
  }

  /** A value with neutral text after it, before text that has been read. */
  lemma {:induction false} JsonThen(s: string, lo: nat, hi: nat, j: Json, tail: string, q: bool, q': bool, e: string)
    requires JsonOk(j) && Lies(s, lo, Show(j)) && Clear(s, lo)
    requires ScalarOk(tail) && Lies(s, lo + |Show(j)|, tail) && Reads(s, lo + |Show(j)| + |tail|, hi, q, q', e)
    ensures Reads(s, lo, hi, q, Flip(q', MisreadJson(j)), ExposedJson(q', j) + e)
    decreases j, 1
  {
    hide Reads, Lies, Clear, Show, JsonOk, ScalarOk;
    var mid := lo + |Show(j)|;
    NeutralThen(s, mid, mid + |tail|, hi, tail, q, q', e);
    ReadsJson(s, lo, mid, j, q');
    ReadsOn(s, lo, mid, hi, q, q', Flip(q', MisreadJson(j)), ExposedJson(q', j), e);
  }

  /** The same for a name, which also has neutral text before it. */
  lemma {:induction false} NameThen(
    s: string, lo: nat, hi: nat, before: string, name: seq<JsonChar>, mid: string, q: bool, q': bool, e: string)
    requires ScalarOk(before) && Lies(s, lo, before)
    requires BodyOk(name) && Lies(s, lo + |before|, Quoted(name)) && Clear(s, lo + |before|)
    requires ScalarOk(mid) && Lies(s, lo + |before| + |Quoted(name)|, mid)
    requires Reads(s, lo + |before| + |Quoted(name)| + |mid|, hi, q, q', e)
    ensures Reads(s, lo, hi, q, Flip(q', if EndsInBackslash(name) then 1 else 0), ExposedText(q', name) + e)
  {
    hide Reads, Lies, Clear, Quoted, BodyOk, ScalarOk, ExposedText, EndsInBackslash, Flip;
    var a := lo + |before|;
    var b := a + |Quoted(name)|;
    var q'' := Flip(q', if EndsInBackslash(name) then 1 else 0);
    NeutralThen(s, b, b + |mid|, hi, mid, q, q', e);
    ReadsQuoted(s, a, b, name, q');
    ReadsOn(s, a, b, hi, q, q', q'', ExposedText(q', name), e);
    NeutralThen(s, lo, a, hi, before, q, q'', ExposedText(q', name) + e);
  }

  function Comma(more: bool): string {
    if more then "," else ""
  }

  lemma {:induction false} GapsAreNeutral(a: string, b: string, c: string)
    requires GapOk(a) && GapOk(c) && ScalarOk(b)
    ensures ScalarOk(a + b + c)
  {
    assert forall i :: 0 <= i < |a| ==> IsGap(a[i]);
    assert forall i :: 0 <= i < |c| ==> IsGap(c[i]);
  }

  lemma {:induction false} FourParts(s: string, lo: nat, a: string, b: string, c: string, d: string)
    requires Lies(s, lo, a + (b + (c + d)))
    ensures Lies(s, lo, a) && Lies(s, lo + |a|, b) && Lies(s, lo + |a| + |b|, c) && Lies(s, lo + |a| + |b| + |c|, d)
  {
    hide Lies;
    Within(s, lo, a, b + (c + d));
    Within(s, lo + |a|, b, c + d);
    Within(s, lo + |a| + |b|, c, d);
  }

  /** Where the parts of a nonempty list of items lie. */
  lemma {:induction false} ItemParts(s: string, lo: nat, items: Items)
    requires items.Item? && ItemsOk(items) && Lies(s, lo, ShowItems(items)) && Clear(s, lo)
    ensures var Item(before, value, after, more) := items;
      var tail := after + Comma(more.Item?);
      var a := lo + |before|;
      var b := a + |Show(value)|;
      && ScalarOk(before) && ScalarOk(tail)
      && Lies(s, lo, before) && Lies(s, a, Show(value)) && Lies(s, b, tail) && Lies(s, b + |tail|, ShowItems(more))
      && lo + |ShowItems(items)| == b + |tail| + |ShowItems(more)|
      && Clear(s, a) && (more.Item? ==> Clear(s, b + |tail|))
  {
    var Item(before, value, after, more) := items;
    var tail := after + Comma(more.Item?);
    assert ShowItems(items) == before + (Show(value) + (tail + ShowItems(more)));
    GapsAreNeutral(before, "", "");
    GapsAreNeutral(after, Comma(more.Item?), "");
    assert before + "" + "" == before && tail + "" == tail;
    hide Show, ShowItems, Lies, ScalarOk, Clear;
    FourParts(s, lo, before, Show(value), tail, ShowItems(more));
    ClearAfter(s, lo, before);
    if more.Item? { ClearAfter(s, lo + |before| + |Show(value)|, tail); }
  }

  lemma {:induction false} ReadsItems(s: string, lo: nat, hi: nat, items: Items, q: bool)
    requires ItemsOk(items) && Lies(s, lo, ShowItems(items)) && hi == lo + |ShowItems(items)|
    requires items.Item? ==> Clear(s, lo)
    ensures Reads(s, lo, hi, q, Flip(q, MisreadItems(items)), ExposedItems(q, items))
    decreases items, 1
  {
    hide Reads, Lies, Clear, Show;
    match items
    case NoItems(gap) => ReadsNeutral(s, lo, hi, gap, q);
    case Item(before, value, after, more) =>
      ItemParts(s, lo, items);
      hide ShowItems, ScalarOk;
      var a := lo + |before|;
      var q' := Flip(q, MisreadItems(more));
      var tail := after + Comma(more.Item?);
      ReadsItems(s, a + |Show(value)| + |tail|, hi, more, q);
      JsonThen(s, a, hi, value, tail, q, q', ExposedItems(q, more));
      NeutralThen(s, lo, a, hi, before, q, Flip(q', MisreadJson(value)), ExposedItems(q, items));
      FlipTwice(q, MisreadItems(more), MisreadJson(value));
  }

  lemma {:induction false} MemberNeutral(members: Members)
    requires members.Member? && MembersOk(members)
    ensures ScalarOk(members.before) && ScalarOk(members.colon + ":" + members.gap)
    ensures ScalarOk(members.after + Comma(members.more.Member?))
  {
    GapsAreNeutral(members.before, "", "");
    GapsAreNeutral(members.colon, ":", members.gap);
    GapsAreNeutral(members.after, Comma(members.more.Member?), "");
    var tail := members.after + Comma(members.more.Member?);
    assert members.before + "" + "" == members.before && tail + "" == tail;
  }

  /** Where the parts of a member lie. */
  lemma {:induction false} SixParts(
    s: string, lo: nat, a: string, b: string, c: string, d: string, e: string, f: string)
    requires Lies(s, lo, a + (b + (c + (d + (e + f))))) && Clear(s, lo)
    requires ScalarOk(a) && ScalarOk(c) && c != "" && ScalarOk(e)
    ensures Lies(s, lo, a) && Lies(s, lo + |a|, b) && Clear(s, lo + |a|)
    ensures var i := lo + |a| + |b|;
      && Lies(s, i, c) && Lies(s, i + |c|, d) && Lies(s, i + |c| + |d|, e) && Lies(s, i + |c| + |d| + |e|, f)
      && Clear(s, i + |c|) && (e != "" ==> Clear(s, i + |c| + |d| + |e|))
  {
    hide Lies, Clear, ScalarOk;
    Within(s, lo, a, b + (c + (d + (e + f))));
    Within(s, lo + |a|, b, c + (d + (e + f)));
    var i := lo + |a| + |b|;
    FourParts(s, i, c, d, e, f);
    ClearAfter(s, lo, a);
    ClearAfter(s, i, c);
    if e != "" { ClearAfter(s, i + |c| + |d|, e); }
  }

  lemma {:induction false} MemberShown(members: Members)
    requires members.Member?
    ensures var Member(before, name, colon, gap, value, after, more) := members;
      ShowMembers(members) == before + (Quoted(name) + ((colon + ":" + gap)
        + (Show(value) + ((after + Comma(more.Member?)) + ShowMembers(more)))))
  {
  }

  lemma {:induction false} ReadsMembers(s: string, lo: nat, hi: nat, members: Members, q: bool)
    requires MembersOk(members) && Lies(s, lo, ShowMembers(members)) && hi == lo + |ShowMembers(members)|
    requires members.Member? ==> Clear(s, lo)
    ensures Reads(s, lo, hi, q, Flip(q, MisreadMembers(members)), ExposedMembers(q, members))
    decreases members, 1
  {
    hide Reads, Lies, Clear, Show, Quoted;
    match members
    case NoMembers(gap) => ReadsNeutral(s, lo, hi, gap, q);
    case Member(before, name, colon, gap, value, after, more) =>
      MemberNeutral(members);
      MemberShown(members);
      MemberCounted(members, q);
      hide MisreadMembers, MisreadJson, ExposedMembers, ExposedJson, ExposedText, Flip, ShowMembers, ScalarOk;
      var mid, tail := colon + ":" + gap, after + Comma(more.Member?);
      SixParts(s, lo, before, Quoted(name), mid, Show(value), tail, ShowMembers(more));
      var c := lo + |before| + |Quoted(name)| + |mid|;
      var q' := Flip(q, MisreadMembers(more));
      ReadsMembers(s, c + |Show(value)| + |tail|, hi, more, q);
      JsonThen(s, c, hi, value, tail, q, q', ExposedMembers(q, more));
      var e := ExposedJson(q', value) + ExposedMembers(q, more);
      NameThen(s, lo, hi, before, name, mid, q, Flip(q', MisreadJson(value)), e);
  }

  lemma {:induction false} MemberCounted(members: Members, q: bool)
    requires members.Member?
    ensures var Member(_, name, _, _, value, _, more) := members;
      var q' := Flip(q, MisreadMembers(more));
      && ExposedMembers(q, members) ==
           ExposedText(Flip(q', MisreadJson(value)), name) + (ExposedJson(q', value) + ExposedMembers(q, more))
      && Flip(Flip(q', MisreadJson(value)), if EndsInBackslash(name) then 1 else 0) == Flip(q, MisreadMembers(members))
  {
    hide Flip, ExposedText, ExposedJson, MisreadJson, EndsInBackslash;
    var m, n := MisreadMembers(members.more), MisreadJson(members.value);
    var one := if EndsInBackslash(members.name) then 1 else 0;
    FlipTwice(q, m, n);
    FlipTwice(q, n + m, one);
    assert MisreadMembers(members) == one + (n + m);
  }

  // ── the object of a message ───────────────────────────────────────────

  predicate NoClose(s: string) {
    forall i :: 0 <= i < |s| ==> s[i] != '}'
  }

  lemma {:induction false} LastClose(s: string, prose: string, shown: string, suffix: string)
    requires s == prose + ("{" + shown + "}") + suffix && NoClose(suffix)
    ensures AfterLastClose(s, |s|) == |prose| + |shown| + 2
    ensures Lies(s, |prose|, "{" + shown + "}")
    ensures Lies(s, |prose| + 1, shown) && s[|prose|] == '{' && s[|prose| + |shown| + 1] == '}'
  {
    var whole := "{" + shown + "}";
    assert Lies(s, |prose|, whole);
    Within(s, |prose|, "{" + shown, "}");
    Within(s, |prose|, "{", shown);
    assert forall i :: |prose| + |whole| <= i < |s| ==> s[i] == suffix[i - |prose| - |whole|];
  }

  /** Over a text that reads as `e`, the scan stops at the brace before it exactly when all comes out even. */
  lemma {:induction false} BraceReached(s: string, lo: nat, hi: nat, q: bool, e: string)
    requires lo < |s| && s[lo] == '{' && Reads(s, lo + 1, hi, false, q, e)
    ensures Scan(s, hi, 1, false) == Some(lo) <==> !q && Balanced(e)
  {
    hide Balanced;
    BalancedWalk(e);
    assert ReadsAt(s, lo + 1, hi, 1, false, q, e);
    hide Walk;
    var w := Walk(e, 1);
    if w.Some? {
      assert Scan(s, lo + 1, w.value, q) == Some(lo) <==> !q && w.value == 1;
    }
  }

  /** What the scan returns is the stretch it stopped at, and no other stretch of that end is as long. */
  lemma {:induction false} StretchFound(s: string, lo: nat, end: nat)
    requires AfterLastClose(s, |s|) == end && lo + 2 <= end <= |s| && s[end - 1] == '}'
    ensures ScannedObject(s) == Some(s[lo..end]) <==> Scan(s, end - 1, 1, false) == Some(lo)
  {
    assert Scan(s, end, 0, false) == Scan(s, end - 1, 1, false);
    hide Scan, AfterLastClose;
    var found := Scan(s, end - 1, 1, false);
    if found.Some? && s[found.value..end] == s[lo..end] {
      assert |s[found.value..end]| == end - found.value;
    }
  }

  /**
    After any prose and before any suffix without a closing brace, the scan
    returns exactly the message's JSON object if and only if an even number of
    its strings end in an escaped backslash and the braces exposed between
    them are balanced.
   */
  lemma {:induction false} ObjectFoundExactly(prose: string, members: Members, suffix: string)
    requires MembersOk(members) && NoClose(suffix)
    ensures ScannedObject(prose + Show(Object(members)) + suffix) == Some(Show(Object(members)))
      <==> MisreadMembers(members) % 2 == 0 && Balanced(ExposedMembers(false, members))
  {
    var shown := ShowMembers(members);
    var s := prose + ("{" + shown + "}") + suffix;
    hide Reads, Lies, ShowMembers, MembersOk, Balanced, ExposedMembers, MisreadMembers;
    hide NoClose, AfterLastClose, Scan, ScannedObject;
    LastClose(s, prose, shown, suffix);
    var lo, end := |prose|, |prose| + |shown| + 2;
    assert s[lo..end] == "{" + shown + "}";
    ReadsMembers(s, lo + 1, end - 1, members, false);
    BraceReached(s, lo, end - 1, Flip(false, MisreadMembers(members)), ExposedMembers(false, members));
    StretchFound(s, lo, end);
  }

  // ── when no string ends in an escaped backslash ───────────────────────

  lemma {:induction false} BracedWalk(e: string, depth: int)
    requires depth >= 1 && Walk(e, depth + 1) == Some(depth + 1)
    ensures Walk("{" + (e + "}"), depth) == Some(depth)
  {
    WalkOn(e, "}", depth);
    WalkOn("{", e + "}", depth);
    assert "}"[..0] == "" && "{"[..0] == "";
  }

  lemma {:induction false} WellReadJson(j: Json, depth: int)
    requires MisreadJson(j) == 0 && depth >= 1
    ensures Walk(ExposedJson(false, j), depth) == Some(depth)
    decreases j, 0
  {
    match j
    case Scalar(_) =>
    case Text(_) =>
    case Array(items) => WellReadItems(items, depth);
    case Object(members) =>
      WellReadMembers(members, depth + 1);
      BracedWalk(ExposedMembers(false, members), depth);
  }

  lemma {:induction false} WellReadItems(items: Items, depth: int)
    requires MisreadItems(items) == 0 && depth >= 1
    ensures Walk(ExposedItems(false, items), depth) == Some(depth)
    decreases items, 1
  {
    match items
    case NoItems(_) =>
    case Item(_, value, _, more) =>
      WellReadItems(more, depth);
      WellReadJson(value, depth);
      WalkOn(ExposedJson(false, value), ExposedItems(false, more), depth);
  }

  lemma {:induction false} WellReadMembers(members: Members, depth: int)
    requires MisreadMembers(members) == 0 && depth >= 1
    ensures Walk(ExposedMembers(false, members), depth) == Some(depth)
    decreases members, 1
  {
    match members
    case NoMembers(_) =>
    case Member(_, _, _, _, value, _, more) =>
      WellReadMembers(more, depth);
      WellReadJson(value, depth);
      var e := ExposedJson(false, value) + ExposedMembers(false, more);
      WalkOn(ExposedJson(false, value), ExposedMembers(false, more), depth);
      assert ExposedMembers(false, members) == "" + e == e;
  }

  /** Then the object is found, and tried first. */
  lemma {:induction false} ObjectFound(prose: string, members: Members, suffix: string)
    requires MembersOk(members) && MisreadMembers(members) == 0 && NoClose(suffix)
    ensures var s := prose + Show(Object(members)) + suffix;
      && ScannedObject(s) == Some(Show(Object(members)))
      && Candidates(s)[0] == Show(Object(members))
  {
    WellReadMembers(members, 1);
    BalancedWalk(ExposedMembers(false, members));
    ObjectFoundExactly(prose, members, suffix);
  }

  /** So a message that closes with a readable report is read as that report. */
  lemma {:induction false} ReportRead<R(!new)>(
    prose: string, members: Members, suffix: string, read: string -> Reading<R>)
    requires MembersOk(members) && MisreadMembers(members) == 0 && NoClose(suffix)
    requires read(Show(Object(members))).Report?
    ensures ReportsFirst(
      Candidates(prose + Show(Object(members)) + suffix), read, 0, read(Show(Object(members))).report)
  {
    ObjectFound(prose, members, suffix);
  }

  // ── when some do ──────────────────────────────────────────────────────

  /** A report of one string with the given text, and one of two members whose names end in an escaped backslash. */
  function OneText(body: seq<JsonChar>): Members {
    Member("", [Plain('p')], "", "", Text(body), "", NoMembers(""))
  }

  function TwoPaths(between: char): Members {
    var path := [Plain('c'), Escape('\\')];
    Member("", path, "", "", Text([Plain(between)]), "", Member("", path, "", "", Scalar("0"), "", NoMembers("")))
  }

  lemma {:induction false} OneTextExposed()
    ensures MembersOk(OneText([Escape('\\')])) && MisreadMembers(OneText([Escape('\\')])) == 1
  {
  }

  /** The scan stands inside a string at the second name's quote, so it reads the text between as structure. */
  lemma {:induction false} TwoPathsExposed(c: char)
    requires CharOk(Plain(c))
    ensures MembersOk(TwoPaths(c)) && MisreadMembers(TwoPaths(c)) == 2
    ensures ExposedMembers(false, TwoPaths(c)) == Seen(false, c)
  {
    var path, between := [Plain('c'), Escape('\\')], [Plain(c)];
    var second := Member("", path, "", "", Scalar("0"), "", NoMembers(""));
    assert EndsInBackslash(path) && !EndsInBackslash(between);
    assert MisreadMembers(second) == 1;
    PathShown(c);
    hide Braces, ShowBody;
    assert ExposedMembers(false, second) == "";
    assert ExposedText(true, between) == Seen(false, c);
  }

  lemma {:induction false} PathShown(c: char)
    ensures Braces(ShowBody([Plain('c'), Escape('\\')])) == "" && Braces(ShowBody([Plain(c)])) == Seen(false, c)
  {
    var path, between := [Plain('c'), Escape('\\')], [Plain(c)];
    assert path[..1] == [Plain('c')] && between[..0] == [] && [Plain('c')][..0] == [];
    assert ShowBody(path) == "c" + "\\\\" && ShowBody(between) == [c];
    hide ShowBody;
    NoBraces("c" + "\\\\");
    assert [c][..0] == "";
  }

  /** One such string and the object is missed; with two it depends on what lies between them. */
  lemma {:induction false} BackslashesMislead(prose: string)
    ensures var one := Show(Object(OneText([Escape('\\')])));
      ScannedObject(prose + one + "") != Some(one)
    ensures ScannedObject(prose + Show(Object(TwoPaths('x'))) + "") == Some(Show(Object(TwoPaths('x'))))
    ensures ScannedObject(prose + Show(Object(TwoPaths('{'))) + "") != Some(Show(Object(TwoPaths('{'))))
  {
    hide TwoPaths, OneText, Show, ScannedObject, MembersOk, MisreadMembers, ExposedMembers;
    OneTextExposed();
    TwoPathsExposed('x');
    TwoPathsExposed('{');
    ObjectFoundExactly(prose, OneText([Escape('\\')]), "");
    ObjectFoundExactly(prose, TwoPaths('x'), "");
    ObjectFoundExactly(prose, TwoPaths('{'), "");
    assert ""[0..] == "";
    assert multiset("{")['{'] == 1 && multiset("{")['}'] == 0;
  }
}
