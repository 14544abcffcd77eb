/** What the token parser reads in a text (itn-token-parser.cpp:71-155), and the text it puts together. */
module TokenReading {
  import opened TokenText

  function SkipBlanks(rest: string): (left: string)
    ensures |left| <= |rest| && (left != "" ==> left[0] != ' ')
  {
    if rest != "" && rest[0] == ' ' then SkipBlanks(rest[1..]) else rest
  }

  /** Each character is eaten if it is next. */
  function Eat(exp: string, rest: string): (left: string)
    ensures |left| <= |rest|
  {
    if exp == "" then rest else Eat(exp[1..], if rest != "" && rest[0] == exp[0] then rest[1..] else rest)
  }

  function LetterPrefix(rest: string): (k: string)
    ensures k <= rest
  {
    if rest != "" && Letter(rest[0]) then [rest[0]] + LetterPrefix(rest[1..]) else ""
  }

  predicate Whitespace(c: char) {
    c == ' ' || c == '\t' || c == '\n' || c == '\r'
  }

  predicate TrimWhitespace(c: char) {
    Whitespace(c) || c == '\U{0B}' || c == '\U{0C}'
  }

  function LTrim(s: string): string {
    if s != "" && TrimWhitespace(s[0]) then LTrim(s[1..]) else s
  }

  function RTrim(s: string): string {
    if s != "" && TrimWhitespace(s[|s| - 1]) then RTrim(s[..|s| - 1]) else s
  }

  function Trim(s: string): string { RTrim(LTrim(s)) }

  /** Reading the entries of a token.  `NoToken`: the reader aborts, at whitespace that is no blank or where a value
      should begin and the text ends, or it looks for a closing quote forever. */
  datatype Fields = NoToken | Fields(token: Token, rest: string)

  /** Up to a closing brace, or the end of the text. */
  function ReadFields(token: Token, rest: string): (r: Fields)
    ensures r.Fields? ==> |r.rest| < |rest| || rest == r.rest == ""
    decreases |rest|
  {
    var left := SkipBlanks(rest);
    if left == "" then Fields(token, "")
    else if left[0] == '}' then Fields(token, left[1..])
    else if Whitespace(left[0]) then NoToken
    else
      var key := LetterPrefix(left);
      match ReadValue(Eat(": \"", left[|key|..]), false)
      case Endless => NoToken
      case Value(value, after) =>
        ValueEnds(Eat(": \"", left[|key|..]), false);
        ReadFields(WithEntry(token, key, value), after[1..])
  }

  /** `Token::append`. */
  function WithEntry(token: Token, key: string, value: string): Token {
    token.(order := token.order + [key], members := token.members[key := value])
  }

  lemma {:induction false} ValueEnds(rest: string, escape: bool)
    requires ReadValue(rest, escape).Value?
    ensures var after := ReadValue(rest, escape).rest; 0 < |after| <= |rest| && after[0] == '\"'
    decreases |rest|
  {
    if rest[0] != '\"' {
      if rest[0] == '\\' && !escape { ValueEnds(rest[2..], true); } else { ValueEnds(rest[1..], false); }
    }
  }

  /** A name, an opening brace, and the entries. */
  function ReadToken(left: string): (r: Fields)
    ensures r.Fields? && left != "" ==> |r.rest| < |left|
  {
    var name := LetterPrefix(left);
    ReadFields(Token(name, [], map[]), Eat(" { ", left[|name|..]))
  }

  /** Reading a whole text.  `Stuck`: it aborts or never ends. */
  datatype Tokens = Stuck | Tokens(tokens: seq<Token>)

  function ReadTokens(rest: string): Tokens
    decreases |rest|
  {
    var left := SkipBlanks(rest);
    if left == "" then Tokens([])
    else if Whitespace(left[0]) then Stuck
    else
      match ReadToken(left)
      case NoToken => Stuck
      case Fields(token, after) => Follow(token, ReadTokens(after))
  }

  function Follow(token: Token, r: Tokens): Tokens {
    match r
    case Stuck => Stuck
    case Tokens(tokens) => Tokens([token] + tokens)
  }

  // ---------- what the parts of the parser find in printed text ----------

  lemma {:induction false} WholeKey(key: string, rest: string)
    requires Letters(key) && (rest == "" || !Letter(rest[0]))
    ensures LetterPrefix(key + rest) == key
  {
    if key == "" {
      assert key + rest == rest;
    } else {
      WholeKey(key[1..], rest);
      assert (key + rest)[1..] == key[1..] + rest;
    }
  }

  /** What is left of a printed token after its name and brace: the entries from `p` on, and what follows the token. */
  ghost function Left(t: Token, p: nat, after: string): string
    requires p <= |t.order|
  {
    Entries(t.order[p..], t.members) + " }" + after
  }

  lemma {:induction false} OpenBrace(t: Token, after: string)
    requires IsCanon(t)
    ensures SkipBlanks(Eat(" { ", " {" + Left(t, 0, after))) == SkipBlanks(Left(t, 0, after))
  {
    var left := Left(t, 0, after);
    var text := " {" + left;
    assert text[1..] == "{" + left && ("{" + left)[1..] == left;
    assert " { "[1..] == "{ " && "{ "[1..] == " " && " "[1..] == "";
    assert Eat("{ ", "{" + left) == Eat(" ", left);
    assert t.order[0..] == t.order;
    assert left != "" && left[0] == ' ' by {
      if t.order != [] { assert t.order[0] in t.order; }
    }
    assert Eat(" ", left) == Eat("", left[1..]);
  }

  lemma {:induction false} EntryHead(key: string, value: string, rest: string)
    requires Letters(key)
    ensures SkipBlanks(Entry(key, value) + rest) == key + ": \"" + value + "\"" + rest
  {
    var body := key + ": \"" + value + "\"" + rest;
    assert Entry(key, value) + rest == " " + body && (" " + body)[1..] == body;
    assert body[0] != ' ' by { if key != "" { assert body[0] == key[0]; } }
  }

  lemma {:induction false} EntryLeft(t: Token, p: nat, after: string)
    requires p < |t.order| && t.order[p] in t.members
    ensures Left(t, p, after) == Entry(t.order[p], t.members[t.order[p]]) + Left(t, p + 1, after)
  {
    hide Entry;
    assert t.order[p..][1..] == t.order[p + 1..];
  }

  lemma {:induction false} KeyOk(t: Token, p: nat)
    requires Readable(t) && IsCanon(t) && p < |t.order|
    ensures t.order[p] in t.members && Letters(t.order[p]) && Clean(t.members[t.order[p]], false)
  {
    hide Letters, Clean;
    assert t.order[p] in t.order;
  }

  /** The next entry begins with its key. */
  lemma {:induction false} NextEntry(t: Token, p: nat, after: string)
    requires Readable(t) && IsCanon(t) && p < |t.order|
    ensures t.order[p] in t.members
    ensures var key, value := t.order[p], t.members[t.order[p]];
            && SkipBlanks(Left(t, p, after)) == key + ": \"" + value + "\"" + Left(t, p + 1, after)
            && Letters(key) && Clean(value, false)
  {
    hide Left, Letters, Clean, Readable, IsCanon, SkipBlanks;
    KeyOk(t, p);
    EntryLeft(t, p, after);
    EntryHead(t.order[p], t.members[t.order[p]], Left(t, p + 1, after));
  }

  lemma {:induction false} AfterKey(key: string, value: string, rest: string)
    requires Letters(key)
    ensures LetterPrefix(key + ": \"" + value + "\"" + rest) == key
    ensures (key + ": \"" + value + "\"" + rest)[|key|..] == ": \"" + value + "\"" + rest
    ensures Eat(": \"", ": \"" + value + "\"" + rest) == value + "\"" + rest
  {
    var tail := ": \"" + value + "\"" + rest;
    assert key + ": \"" + value + "\"" + rest == key + tail;
    WholeKey(key, tail);
    var body := value + "\"" + rest;
    assert tail[1..] == " \"" + body && (" \"" + body)[1..] == "\"" + body && ("\"" + body)[1..] == body;
    assert ": \""[1..] == " \"" && " \""[1..] == "\"" && "\""[1..] == "";
    assert Eat(" \"", " \"" + body) == Eat("\"", "\"" + body) == Eat("", body);
  }

  lemma {:induction false} CloseBrace(t: Token, after: string)
    ensures SkipBlanks(Left(t, |t.order|, after)) == "}" + after
  {
    assert t.order[|t.order|..] == [];
    assert Left(t, |t.order|, after) == " }" + after;
    assert (" }" + after)[1..] == "}" + after;
  }

  /** What follows a token. */
  ghost function After(ts: seq<Token>, k: nat): string
    requires k <= |ts|
  {
    if k == |ts| then "" else if k == 0 then PrintAll(ts, map[]) else " " + PrintAll(ts[k..], map[])
  }

  lemma {:induction false} NextToken(ts: seq<Token>, k: nat)
    requires k < |ts| && Readable(ts[k])
    ensures SkipBlanks(After(ts, k)) == ts[k].name + " {" + Left(ts[k], 0, After(ts, k + 1))
  {
    hide Entries;
    var t := ts[k];
    var body := PrintAll(ts[k..], map[]);
    assert ts[k..][0] == t && ts[k..][1..] == ts[k + 1..] && t.order[0..] == t.order && ts[0..] == ts;
    assert body == Print(t, map[]) + After(ts, k + 1);
    assert body == t.name + " {" + Left(t, 0, After(ts, k + 1));
    assert body[0] == t.name[0] && Letter(body[0]);
    assert (" " + body)[1..] == body;
  }

  lemma NameStart(t: Token, left: string)
    requires Readable(t)
    ensures var text := t.name + " {" + left;
            && text != "" && !Whitespace(text[0]) && LetterPrefix(text) == t.name && text[|t.name|..] == " {" + left
  {
    var text := t.name + " {" + left;
    assert text == t.name + (" {" + left);
    WholeKey(t.name, " {" + left);
    assert Letter(text[0]);
  }

  lemma {:induction false} KeyStart(key: string, value: string, rest: string)
    requires Letters(key)
    ensures var text := key + ": \"" + value + "\"" + rest; text != "" && text[0] != '}' && !Whitespace(text[0])
  {
  }

  /** The token read so far: the first `p` entries. */
  ghost predicate ReadSoFar(token: Token, t: Token, p: nat)
    requires p <= |t.order|
  {
    && token.name == t.name && token.order == t.order[..p]
    && forall k ::
         && (k in token.members <==> k in t.order[..p])
         && (k in token.members ==> k in t.members && token.members[k] == t.members[k])
  }

  lemma ReadOneMore(token: Token, t: Token, p: nat)
    requires p < |t.order| && ReadSoFar(token, t, p) && t.order[p] in t.members
    ensures ReadSoFar(token.(order := token.order + [t.order[p]],
                             members := token.members[t.order[p] := t.members[t.order[p]]]), t, p + 1)
  {
    assert t.order[..p + 1] == t.order[..p] + [t.order[p]];
  }

  lemma ReadAll(token: Token, t: Token)
    requires IsCanon(t) && ReadSoFar(token, t, |t.order|)
    ensures token == t
  {
    assert t.order[..|t.order|] == t.order;
    assert token.members == t.members;
  }

  lemma ReadNone(t: Token)
    ensures ReadSoFar(Token(t.name, [], map[]), t, 0)
  {
  }

  /** All the reader has to tell apart: another entry, or the closing brace. */
  lemma LeftStart(t: Token, p: nat, after: string)
    requires Readable(t) && IsCanon(t) && p <= |t.order|
    ensures var text := SkipBlanks(Left(t, p, after));
            && text != "" && (text[0] == '}' <==> p == |t.order|) && (p == |t.order| ==> text[1..] == after)
  {
    hide SkipBlanks, Left;
    if p < |t.order| {
      NextEntry(t, p, after);
    } else {
      CloseBrace(t, after);
    }
  }

  /** The entries of a printed token, from entry `p` on. */
  lemma {:induction false} FieldsOfPrinted(token: Token, t: Token, p: nat, after: string)
    requires Readable(t) && IsCanon(t) && p <= |t.order| && ReadSoFar(token, t, p)
    ensures ReadFields(token, Left(t, p, after)) == Fields(t, after)
    decreases |t.order| - p
  {
    hide SkipBlanks, Left, Letters, Clean, ReadValue, LetterPrefix, Eat, IsCanon, Readable, ReadSoFar, ReadFields;
    LeftStart(t, p, after);
    var left := SkipBlanks(Left(t, p, after));
    if p == |t.order| {
      ReadAll(token, t);
      ClosedFields(token, Left(t, p, after));
    } else {
      NextEntry(t, p, after);
      var key, value, more := t.order[p], t.members[t.order[p]], Left(t, p + 1, after);
      AfterKey(key, value, more);
      CleanIsReadBack(value, more, false);
      KeyStart(key, value, more);
      ReadOneMore(token, t, p);
      OneField(token, Left(t, p, after), key, value, more);
      FieldsOfPrinted(WithEntry(token, key, value), t, p + 1, after);
    }
  }

  lemma ClosedFields(token: Token, rest: string)
    requires SkipBlanks(rest) != "" && SkipBlanks(rest)[0] == '}'
    ensures ReadFields(token, rest) == Fields(token, SkipBlanks(rest)[1..])
  {
  }

  lemma {:induction false} OneField(token: Token, rest: string, key: string, value: string, more: string)
    requires var left := SkipBlanks(rest);
             && left != "" && left[0] != '}' && !Whitespace(left[0]) && LetterPrefix(left) == key
             && ReadValue(Eat(": \"", left[|key|..]), false) == Value(value, "\"" + more)
    ensures ReadFields(token, rest) == ReadFields(WithEntry(token, key, value), more)
  {
    hide SkipBlanks, LetterPrefix, Eat, ReadValue, WithEntry;
    assert ("\"" + more)[1..] == more;
  }

  lemma {:induction false} BlanksSkipped(token: Token, a: string, b: string)
    requires SkipBlanks(a) == SkipBlanks(b)
    ensures ReadFields(token, a) == ReadFields(token, b)
  {
    hide SkipBlanks;
  }

  lemma {:induction false} TokenOfPrinted(t: Token, after: string)
    requires Readable(t) && IsCanon(t)
    ensures var text := t.name + " {" + Left(t, 0, after);
            text != "" && !Whitespace(text[0]) && ReadToken(text) == Fields(t, after)
  {
    hide SkipBlanks, Left, Eat, IsCanon, Readable, ReadFields, LetterPrefix;
    var left := Left(t, 0, after);
    NameStart(t, left);
    OpenBrace(t, after);
    ReadNone(t);
    FieldsOfPrinted(Token(t.name, [], map[]), t, 0, after);
    BlanksSkipped(Token(t.name, [], map[]), Eat(" { ", " {" + left), left);
  }

  lemma {:induction false} RestOfPrinted(ts: seq<Token>, k: nat)
    requires k <= |ts| && AllReadable(ts) && (forall i :: 0 <= i < |ts| ==> IsCanon(ts[i]))
    ensures ReadTokens(After(ts, k)) == Tokens(ts[k..])
    decreases |ts| - k
  {
    hide SkipBlanks, After, Left, ReadToken, IsCanon, Readable;
    if k == |ts| {
      NothingAfter(ts);
    } else {
      NextToken(ts, k);
      TokenOfPrinted(ts[k], After(ts, k + 1));
      RestOfPrinted(ts, k + 1);
      assert ts[k..] == [ts[k]] + ts[k + 1..];
    }
  }

  lemma Input(ts: seq<Token>)
    requires ts != [] && AllReadable(ts)
    ensures PrintAll(ts, map[]) != "" && PrintAll(ts, map[]) == After(ts, 0)
  {
    assert ts[0].name != "";
  }

  lemma NothingAfter(ts: seq<Token>)
    ensures SkipBlanks(After(ts, |ts|)) == ""
  {
  }

  /** What was printed is read as the tokens with their printed keys, in printed order. */
  lemma {:induction false} PrintedIsRead(ts: seq<Token>, shown: Orders)
    requires ts != [] && AllReadable(ts)
    ensures PrintAll(ts, shown) != "" && ReadTokens(PrintAll(ts, shown)) == Tokens(CanonAll(ts, shown))
  {
    hide Canon, Print, PrintAll, IsCanon, Readable, After;
    var us := CanonAll(ts, shown);
    CanonAllPrints(ts, shown);
    forall i | 0 <= i < |us|
      ensures IsCanon(us[i]) && Readable(us[i])
    {
      CanonIsCanon(ts[i], shown);
      CanonReadable(ts[i], shown);
    }
    Input(us);
    RestOfPrinted(us, 0);
  }

  // ---------- the text that is put together ----------

  lemma SpacedSnoc(ts: seq<Token>, i: nat, orders: Orders)
    requires i < |ts|
    ensures Spaced(ts[..i + 1], orders) == Spaced(ts[..i], orders) + (Print(ts[i], orders) + " ")
  {
    hide Print;
    assert ts[..i + 1][..i] == ts[..i];
  }

  /** Every token followed by a blank. */
  ghost function Spaced(ts: seq<Token>, orders: Orders): string {
    if ts == [] then "" else Spaced(ts[..|ts| - 1], orders) + (Print(ts[|ts| - 1], orders) + " ")
  }

  lemma {:induction false} SpacedIs(ts: seq<Token>, orders: Orders)
    requires ts != []
    ensures Spaced(ts, orders) == PrintAll(ts, orders) + " "
  {
    hide Print;
    var n := |ts| - 1;
    if n > 0 {
      SpacedIs(ts[..n], orders);
      PrintAllSnoc(ts[..n], ts[n], orders);
      assert ts == ts[..n] + [ts[n]];
    } else {
      assert Spaced(ts[..n], orders) == "";
    }
  }

  lemma {:induction false} PrintAllSnoc(ts: seq<Token>, t: Token, orders: Orders)
    requires ts != []
    ensures PrintAll(ts + [t], orders) == PrintAll(ts, orders) + " " + Print(t, orders)
  {
    hide Print;
    if |ts| == 1 {
      assert (ts + [t])[1..] == [t];
    } else {
      PrintAllSnoc(ts[1..], t, orders);
      assert (ts + [t])[1..] == ts[1..] + [t];
    }
  }

  lemma {:induction false} Ends(ts: seq<Token>, orders: Orders)
    requires ts != []
    ensures var text := PrintAll(ts, orders); text != "" && text[|text| - 1] == '}'
  {
    if |ts| > 1 { Ends(ts[1..], orders); }
  }

  lemma {:induction false} Trimmed(ts: seq<Token>, orders: Orders)
    requires ts != [] && AllReadable(ts)
    ensures Trim(Spaced(ts, orders)) == PrintAll(ts, orders)
  {
    var text := PrintAll(ts, orders);
    SpacedIs(ts, orders);
    Ends(ts, orders);
    assert Readable(ts[0]) && text[0] == ts[0].name[0];
    assert LTrim(text + " ") == text + " ";
    assert (text + " ")[..|text|] == text;
    assert RTrim(text + " ") == RTrim(text) == text;
  }

  /** Several texts put together. */
  lemma {:induction false} PrintAllConcat(ts: seq<Token>, us: seq<Token>, orders: Orders)
    requires ts != [] && us != []
    ensures PrintAll(ts + us, orders) == PrintAll(ts, orders) + " " + PrintAll(us, orders)
  {
    hide Print;
    assert (ts + us)[1..] == ts[1..] + us;
    if |ts| > 1 {
      PrintAllConcat(ts[1..], us, orders);
    } else {
      assert ts[1..] + us == us;
    }
  }

  /** What a new parser puts together from printed text: the same tokens in the orders of its table. */
  lemma {:induction false} ReorderPrinted(ts: seq<Token>, shown: Orders, orders: Orders)
    requires ts != [] && AllReadable(ts)
    ensures ReadTokens(PrintAll(ts, shown)).Tokens?
    ensures var read := ReadTokens(PrintAll(ts, shown)).tokens;
            Trim(Spaced(read, orders)) == PrintAll(read, orders) && read == CanonAll(ts, shown)
  {
    hide PrintAll, Trim, Canon, ReadTokens;
    PrintedIsRead(ts, shown);
    ReorderTwice(ts, shown, orders);
    Trimmed(CanonAll(ts, shown), orders);
  }

  // ---------- several reorderings by one parser ----------

  /** Printing replaces the order of a token by that of the table. */
  function Ordered(t: Token, orders: Orders): Token {
    t.(order := OrderOf(t, orders))
  }

  function OrderedAll(ts: seq<Token>, orders: Orders): (r: seq<Token>)
    ensures |r| == |ts| && forall i :: 0 <= i < |r| ==> r[i] == Ordered(ts[i], orders)
  {
    seq(|ts|, i requires 0 <= i < |ts| => Ordered(ts[i], orders))
  }

  lemma {:induction false} OrderedPrints(ts: seq<Token>, orders: Orders)
    ensures PrintAll(OrderedAll(ts, orders), orders) == PrintAll(ts, orders)
  {
    if ts != [] {
      OrderedPrints(ts[1..], orders);
      assert OrderedAll(ts, orders)[1..] == OrderedAll(ts[1..], orders);
      assert Print(Ordered(ts[0], orders), orders) == Print(ts[0], orders);
    }
  }

  /** A parser that has reordered the text of `ts` and is then given the text of `us` prints both; so what it prints for
      its own output is never that output again. */
  lemma {:induction false} SecondReorder(ts: seq<Token>, us: seq<Token>, orders: Orders)
    requires ts != [] && us != [] && AllReadable(ts) && AllReadable(us)
    ensures var held := OrderedAll(ts, orders);
            && Trim(Spaced(held + us, orders)) == PrintAll(ts, orders) + " " + PrintAll(us, orders)
            && Trim(Spaced(held + us, orders)) != PrintAll(us, orders)
  {
    hide PrintAll, Trim;
    var held := OrderedAll(ts, orders);
    forall i | 0 <= i < |held + us|
      ensures Readable((held + us)[i])
    {
      assert i < |ts| ==> Readable(ts[i]);
    }
    Trimmed(held + us, orders);
    PrintAllConcat(held, us, orders);
    OrderedPrints(ts, orders);
  }
}
