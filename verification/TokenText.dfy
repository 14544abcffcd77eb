/** The text form of tagged tokens (itn-token-parser.h:33-67): `name { key: "value" key: "value" }`. */
module TokenText {

  /** `order` lists the keys as they are printed. */
  datatype Token = Token(name: string, order: seq<string>, members: map<string, string>)

  type Orders = map<string, seq<string>>

  predicate Letter(c: char) {
    'a' <= c <= 'z' || 'A' <= c <= 'Z' || c == '_'
  }

  ghost predicate Letters(s: string) {
    forall i :: 0 <= i < |s| ==> Letter(s[i])
  }

  // ---------- printing ----------

  function Entry(key: string, value: string): string {
    " " + key + ": \"" + value + "\""
  }

  /** Keys without a value are not printed. */
  function Entries(order: seq<string>, members: map<string, string>): string {
    if order == [] then ""
    else (if order[0] in members then Entry(order[0], members[order[0]]) else "") + Entries(order[1..], members)
  }

  /** A table of orders takes precedence over the token's own. */
  function OrderOf(t: Token, orders: Orders): seq<string> {
    if t.name in orders then orders[t.name] else t.order
  }

  function Print(t: Token, orders: Orders): string {
    t.name + " {" + Entries(OrderOf(t, orders), t.members) + " }"
  }

  function PrintAll(ts: seq<Token>, orders: Orders): string {
    if ts == [] then "" else if |ts| == 1 then Print(ts[0], orders)
        else Print(ts[0], orders) + " " + PrintAll(ts[1..], orders)
  }

  // ---------- the order of the printed keys ----------

  /** The keys of a list in between, printed. */
  lemma {:induction false} EntriesConcat(a: seq<string>, b: seq<string>, members: map<string, string>)
    ensures Entries(a + b, members) == Entries(a, members) + Entries(b, members)
  {
    hide Entry, Entries;
    if a == [] {
      assert a + b == b;
      NoEntries(members);
    } else {
      EntriesConcat(a[1..], b, members);
      FirstEntry(a, members);
      FirstEntry(a + b, members);
      assert (a + b)[1..] == a[1..] + b && (a + b)[0] == a[0];
    }
  }

  lemma NoEntries(members: map<string, string>)
    ensures Entries([], members) == ""
  {
  }

  lemma FirstEntry(order: seq<string>, members: map<string, string>)
    requires order != []
    ensures Entries(order, members) ==
              (if order[0] in members then Entry(order[0], members[order[0]]) else "") + Entries(order[1..], members)
  {
  }

  lemma {:induction false} EntryAt(order: seq<string>, members: map<string, string>, i: nat)
    returns (a: string, c: string)
    requires i < |order| && order[i] in members
    ensures Entries(order, members) == a + Entry(order[i], members[order[i]]) + c
    ensures a == Entries(order[..i], members) && c == Entries(order[i + 1..], members)
  {
    hide Entry;
    a, c := Entries(order[..i], members), Entries(order[i + 1..], members);
    assert order == order[..i] + order[i..] && order[i..][1..] == order[i + 1..];
    EntriesConcat(order[..i], order[i..], members);
  }

  /** The keys of a token that the table knows are printed in the table's order: of two keys the token has, the one that
      stands first in the table is printed first. */
  lemma {:induction false} TableOrderWins(t: Token, orders: Orders, i: nat, j: nat)
    returns (a: string, b: string, c: string)
    requires t.name in orders && i < j < |orders[t.name]|
    requires orders[t.name][i] in t.members && orders[t.name][j] in t.members
    ensures var (k, l) := (orders[t.name][i], orders[t.name][j]);
            Print(t, orders) ==
              t.name + " {" + a + (" " + k + ": \"" + t.members[k] + "\"") + b
              + (" " + l + ": \"" + t.members[l] + "\"") + c + " }"
  {
    hide Entry, Entries;
    var order := orders[t.name];
    a, b, c := TwoEntries(order, t.members, i, j);
    EntryIsText(order[i], t.members[order[i]]);
    EntryIsText(order[j], t.members[order[j]]);
    Flatten(t.name + " {", a, Entry(order[i], t.members[order[i]]), b, Entry(order[j], t.members[order[j]]), c);
  }

  lemma {:induction false} TwoEntries(order: seq<string>, members: map<string, string>, i: nat, j: nat)
    returns (a: string, b: string, c: string)
    requires i < j < |order| && order[i] in members && order[j] in members
    ensures Entries(order, members) ==
              a + Entry(order[i], members[order[i]]) + (b + Entry(order[j], members[order[j]]) + c)
  {
    hide Entry, Entries;
    var rest;
    a, rest := EntryAt(order, members, i);
    b, c := EntryAt(order[i + 1..], members, j - i - 1);
  }

  lemma Flatten(head: string, a: string, first: string, b: string, second: string, c: string)
    ensures head + (a + first + (b + second + c)) + " }" == head + a + first + b + second + c + " }"
  {
  }

  lemma EntryIsText(key: string, value: string)
    ensures Entry(key, value) == " " + key + ": \"" + value + "\""
  {
  }

  /** A key that a token's table entry leaves out is not printed: only the table's keys are. */
  lemma {:induction false} OnlyTableKeys(t: Token, orders: Orders)
    requires t.name in orders
    ensures forall k :: k in t.members && k in orders[t.name] <==> k in Present(OrderOf(t, orders), t.members)
    ensures Print(t, orders) == t.name + " {" + Entries(Present(orders[t.name], t.members), t.members) + " }"
  {
    EntriesPresent(orders[t.name], t.members);
  }

  // ---------- what printing keeps of a token ----------

  function Present(order: seq<string>, members: map<string, string>): (r: seq<string>)
    ensures forall k :: k in r <==> k in order && k in members
  {
    if order == [] then []
    else
      assert order == [order[0]] + order[1..];
      var rest := Present(order[1..], members);
      if order[0] in members then [order[0]] + rest else rest
  }

  /** A token with the printed keys, in printed order, and nothing else. */
  function Canon(t: Token, orders: Orders): Token {
    var keys := Present(OrderOf(t, orders), t.members);
    Token(t.name, keys, map k | k in t.members && k in keys :: t.members[k])
  }

  function CanonAll(ts: seq<Token>, orders: Orders): (r: seq<Token>)
    ensures |r| == |ts| && forall i :: 0 <= i < |r| ==> r[i] == Canon(ts[i], orders)
  {
    if ts == [] then [] else [Canon(ts[0], orders)] + CanonAll(ts[1..], orders)
  }

  /** All keys are printed, and there are no other members. */
  ghost predicate IsCanon(t: Token) {
    (forall k :: k in t.order <==> k in t.members)
  }

  lemma {:induction false} CanonIsCanon(t: Token, orders: Orders)
    ensures IsCanon(Canon(t, orders))
  {
  }

  lemma {:induction false} EntriesPresent(order: seq<string>, members: map<string, string>)
    ensures Entries(Present(order, members), members) == Entries(order, members)
  {
    if order != [] {
      EntriesPresent(order[1..], members);
      assert order[0] in members ==> Present(order, members)[1..] == Present(order[1..], members);
    }
  }

  lemma {:induction false} EntriesAgree(order: seq<string>, m: map<string, string>, n: map<string, string>)
    requires forall k :: k in order ==> (k in m <==> k in n) && (k in m ==> m[k] == n[k])
    ensures Entries(order, m) == Entries(order, n)
  {
    if order != [] {
      assert order[0] in order && forall k :: k in order[1..] ==> k in order;
      EntriesAgree(order[1..], m, n);
    }
  }

  /** A canonical token prints as the original does. */
  lemma {:induction false} CanonPrints(t: Token, orders: Orders)
    ensures Print(Canon(t, orders), map[]) == Print(t, orders) && Print(Canon(t, orders), orders) == Print(t, orders)
  {
    var c := Canon(t, orders);
    var order := OrderOf(t, orders);
    EntriesAgree(c.order, c.members, t.members);
    EntriesPresent(order, t.members);
    EntriesAgree(order, c.members, t.members);
  }

  lemma {:induction false} CanonAllPrints(ts: seq<Token>, orders: Orders)
    ensures PrintAll(CanonAll(ts, orders), map[]) == PrintAll(ts, orders)
    ensures PrintAll(CanonAll(ts, orders), orders) == PrintAll(ts, orders)
  {
    hide Print, Canon;
    if ts != [] {
      CanonPrints(ts[0], orders);
      CanonAllPrints(ts[1..], orders);
      assert CanonAll(ts, orders)[1..] == CanonAll(ts[1..], orders);
    }
  }

  // ---------- values ----------

  /** What reading a value up to its closing quote gives; without one, reading never ends. */
  datatype Reading = Endless | Value(value: string, rest: string)

  /** The reader's own treatment of backslashes: one that does not follow an escape takes the next character along. */
  function ReadValue(rest: string, escape: bool): Reading {
    if rest == "" then Endless
    else if rest[0] == '\"' then Value("", rest)
    else
      var escape' := rest[0] == '\\' && !escape;
      if escape' then
        if |rest| == 1 then Endless else Prepend(rest[..2], ReadValue(rest[2..], true))
      else Prepend(rest[..1], ReadValue(rest[1..], false))
  }

  function Prepend(s: string, r: Reading): Reading {
    match r
    case Endless => Endless
    case Value(value, rest) => Value(s + value, rest)
  }

  /** No quote but behind an active backslash, and no active backslash at the end.  Right behind an escape a backslash
      is not active: two escapes in a row are not read as such. */
  ghost predicate Clean(value: string, escape: bool) {
    value == "" ||
    (value[0] != '\"' &&
     if value[0] == '\\' && !escape then |value| > 1 && Clean(value[2..], true) else Clean(value[1..], false))
  }

  lemma {:induction false} PlainIsClean(value: string, escape: bool)
    requires '\"' !in value && '\\' !in value
    ensures Clean(value, escape)
  {
    if value != "" { PlainIsClean(value[1..], false); }
  }

  /** Exactly the clean values are read back as they were printed. */
  lemma {:induction false} CleanIsReadBack(value: string, rest: string, escape: bool)
    ensures ReadValue(value + "\"" + rest, escape) == Value(value, "\"" + rest) <==> Clean(value, escape)
    decreases |value|
  {
    var text := value + "\"" + rest;
    if value == "" {
      assert text == "\"" + rest;
    } else if value[0] == '\"' {
      assert text[0] == '\"';
    } else if value[0] == '\\' && !escape {
      if |value| > 1 {
        CleanIsReadBack(value[2..], rest, true);
        assert text[2..] == value[2..] + "\"" + rest && text[..2] == value[..2];
        assert value == value[..2] + value[2..];
        PrependBack(value[..2], value[2..], "\"" + rest, ReadValue(text[2..], true));
      } else {
        assert text[..2] == "\\\"";
        Longer(text[..2], value, "\"" + rest, ReadValue(text[2..], true));
      }
    } else {
      CleanIsReadBack(value[1..], rest, false);
      assert text[1..] == value[1..] + "\"" + rest && text[..1] == value[..1];
      assert value == value[..1] + value[1..];
      PrependBack(value[..1], value[1..], "\"" + rest, ReadValue(text[1..], false));
    }
  }

  lemma PrependBack(s: string, value: string, rest: string, r: Reading)
    ensures Prepend(s, r) == Value(s + value, rest) <==> r == Value(value, rest)
  {
    if r.Value? && s + r.value == s + value {
      assert (s + r.value)[|s|..] == r.value && (s + value)[|s|..] == value;
    }
  }

  lemma Longer(s: string, value: string, rest: string, r: Reading)
    requires |s| > |value|
    ensures Prepend(s, r) != Value(value, rest)
  {
  }

  /** Two escaped quotes in a row end the value too early. */
  lemma {:induction false} TwoEscapesFail(rest: string)
    ensures !Clean("\\\"\\\"", false)
            && ReadValue("\\\"\\\"" + "\"" + rest, false) == Value("\\\"\\", "\"" + "\"" + rest)
  {
    var text := "\\\"\\\"" + "\"" + rest;
    var tail := text[2..];
    assert tail == "\\" + "\"" + "\"" + rest && tail[1..] == "\"" + "\"" + rest;
    assert ReadValue(tail[1..], false) == Value("", "\"" + "\"" + rest);
    assert tail[..1] == "\\" && ReadValue(tail, true) == Value("\\" + "", "\"" + "\"" + rest);
    assert text[..2] == "\\\"" && "\\\"" + "\\" == "\\\"\\";
    assert "\\\"\\\""[2..] == "\\\"" && "\\\""[1..] == "\"";
  }

  // ---------- what can be read back ----------

  /** A name and keys of letters, and clean values. */
  ghost predicate Readable(t: Token) {
    && Letters(t.name) && t.name != ""
    && forall k :: k in t.members ==> Letters(k) && Clean(t.members[k], false)
  }

  ghost predicate AllReadable(ts: seq<Token>) {
    forall i :: 0 <= i < |ts| ==> Readable(ts[i])
  }

  lemma {:induction false} CanonReadable(t: Token, orders: Orders)
    requires Readable(t)
    ensures Readable(Canon(t, orders))
  {
  }

  /** Reordering what was reordered changes nothing. */
  lemma {:induction false} ReorderTwice(ts: seq<Token>, shown: Orders, orders: Orders)
    requires AllReadable(ts)
    ensures var once := PrintAll(CanonAll(ts, shown), orders);
            && AllReadable(CanonAll(ts, shown)) && once == PrintAll(CanonAll(CanonAll(ts, shown), orders), orders)
  {
    forall i | 0 <= i < |ts|
      ensures Readable(Canon(ts[i], shown))
    {
      CanonReadable(ts[i], shown);
    }
    CanonAllPrints(CanonAll(ts, shown), orders);
  }
}
