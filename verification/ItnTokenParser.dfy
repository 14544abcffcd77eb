/** The token parser (itn-token-parser.cpp:53-155): a cursor over the characters of the text, and the tokens read. */
module ItnTokenParser {
  import opened TokenText
  import opened TokenReading

  /** The current character, or the end of the text. */
  datatype Ch = Eos | At(c: char)

  class TokenParser {
    const orders: Orders
    var index: nat
    var ch: Ch
    var text: string
    var tokens: seq<Token>

    ghost predicate Valid()
      reads this`index, this`ch, this`text
    {
      index < |text| && if ch == Eos then index == |text| - 1 else ch == At(text[index])
    }

    /** What has not been read yet. */
    ghost function Rest(): string
      requires Valid()
      reads this`index, this`ch, this`text
    {
      if ch == Eos then "" else text[index..]
    }

    constructor (orders: Orders)
      ensures this.orders == orders && tokens == []
    {
      this.orders := orders;
      index, ch, text, tokens := 0, Eos, "", [];
    }

    method Load(input: string)
      requires input != ""
      modifies this`index, this`ch, this`text
      ensures Valid() && Rest() == input
    {
      text := input;
      index := 0;
      ch := At(text[0]);
    }

    method Read() returns (more: bool)
      requires Valid()
      modifies this`index, this`ch
      ensures Valid() && Rest() == (if old(Rest()) == "" then "" else old(Rest())[1..]) && (more <==> Rest() != "")
    {
      if index < |text| - 1 {
        index := index + 1;
        ch := At(text[index]);
        return true;
      }
      ch := Eos;
      return false;
    }

    method ParseWs() returns (notEos: bool)
      requires Valid()
      modifies this`index, this`ch
      ensures Valid() && Rest() == SkipBlanks(old(Rest())) && (notEos <==> Rest() != "")
    {
      notEos := ch != Eos;
      while notEos && ch == At(' ')
        invariant Valid() && (notEos <==> Rest() != "") && SkipBlanks(Rest()) == SkipBlanks(old(Rest()))
        decreases |Rest()|
      {
        notEos := Read();
      }
    }

    method ParseChar(exp: char) returns (ok: bool)
      requires Valid()
      modifies this`index, this`ch
      ensures Valid() && (ok <==> old(Rest()) != "" && old(Rest())[0] == exp)
      ensures Rest() == if ok then old(Rest())[1..] else old(Rest())
    {
      if ch == At(exp) {
        var _ := Read();
        return true;
      }
      return false;
    }

    method ParseChars(exp: string) returns (ok: bool)
      requires Valid()
      modifies this`index, this`ch
      ensures Valid() && Rest() == Eat(exp, old(Rest()))
    {
      ok := false;
      var k: nat := 0;
      while k < |exp|
        invariant k <= |exp| && Valid() && Eat(exp[k..], Rest()) == Eat(exp, old(Rest()))
      {
        assert exp[k..][1..] == exp[k + 1..];
        var some := ParseChar(exp[k]);
        ok := ok || some;
        k := k + 1;
      }
    }

    /** The source aborts at the end of the text and at whitespace. */
    method ParseKey() returns (key: string)
      requires Valid() && Rest() != "" && !Whitespace(Rest()[0])
      modifies this`index, this`ch
      ensures Valid() && key == LetterPrefix(old(Rest())) && Rest() == old(Rest())[|key|..]
    {
      hide Valid, Rest, LetterPrefix, Letter;
      key := "";
      ghost var all := Rest();
      assert "" + LetterPrefix(all) == LetterPrefix(all) && "" + all == all;
      Here();
      while ch != Eos && Letter(ch.c)
        invariant Valid() && key + Rest() == all && key + LetterPrefix(Rest()) == LetterPrefix(all)
        invariant (ch == Eos <==> Rest() == "") && (ch != Eos ==> ch == At(Rest()[0]))
        decreases |Rest()|
      {
        OneLetter(key, Rest());
        key := key + [ch.c];
        var _ := Read();
        Here();
      }
      NoLetter(key, Rest());
    }

    /** The current character is the first of what is left. */
    lemma Here()
      requires Valid()
      ensures (ch == Eos <==> Rest() == "") && (ch != Eos ==> ch == At(Rest()[0]))
    {
    }

    static lemma OneLetter(key: string, rest: string)
      requires rest != "" && Letter(rest[0])
      ensures key + [rest[0]] + rest[1..] == key + rest
      ensures key + [rest[0]] + LetterPrefix(rest[1..]) == key + LetterPrefix(rest)
    {
      hide Letter;
    }

    static lemma NoLetter(key: string, rest: string)
      requires rest == "" || !Letter(rest[0])
      ensures key + LetterPrefix(rest) == key && (key + rest)[|key|..] == rest
    {
      hide Letter;
    }

    /** Without a closing quote the source reads on forever. */
    method ParseValue() returns (value: string)
      requires Valid() && ReadValue(Rest(), false).Value?
      modifies this`index, this`ch
      ensures Valid() && ReadValue(old(Rest()), false) == Value(value, Rest())
    {
      hide ReadValue, Prepend, Valid, Rest;
      var escape := false;
      value := "";
      ghost var result := ReadValue(Rest(), false);
      PrependNothing(result);
      Here();
      while ch != At('\"')
        invariant Valid() && ReadValue(Rest(), escape).Value? && Prepend(value, ReadValue(Rest(), escape)) == result
        invariant (ch == Eos <==> Rest() == "") && (ch != Eos ==> ch == At(Rest()[0]))
        decreases |Rest()|
      {
        ghost var (was, rest) := (value, Rest());
        OneRead(rest, escape);
        value := value + [ch.c];
        escape := ch == At('\\') && !escape;
        var _ := Read();
        Here();
        ghost var n: nat := 1;
        if escape {
          n := 2;
          value := value + [ch.c];
          var _ := Read();
          Here();
        }
        Taken(was, rest, value, n);
        assert Rest() == rest[n..];
        PrependTwice(was, rest[..n], ReadValue(rest[n..], escape));
      }
      OneRead(Rest(), escape);
      PrependValue(value, Rest());
    }

    static lemma Taken(was: string, rest: string, value: string, n: nat)
      requires n <= |rest| && 1 <= n <= 2
      requires value == if n == 1 then was + [rest[0]] else was + [rest[0]] + [rest[1..][0]]
      ensures value == was + rest[..n]
    {
    }

    static lemma PrependValue(s: string, rest: string)
      ensures Prepend(s, Value("", rest)) == Value(s, rest)
    {
      assert s + "" == s;
    }

    static lemma PrependNothing(r: Reading)
      ensures Prepend("", r) == r
    {
    }

    /** One step of reading a value takes one character, or two. */
    static lemma OneRead(rest: string, escape: bool)
      requires ReadValue(rest, escape).Value?
      ensures rest != ""
      ensures rest[0] == '\"' ==> ReadValue(rest, escape) == Value("", rest)
      ensures rest[0] != '\"' ==>
                var escape' := rest[0] == '\\' && !escape;
                var n := if escape' then 2 else 1;
                && n <= |rest| && ReadValue(rest[n..], escape').Value?
                && ReadValue(rest, escape) == Prepend(rest[..n], ReadValue(rest[n..], escape'))
    {
    }

    static lemma PrependTwice(a: string, b: string, r: Reading)
      ensures Prepend(a, Prepend(b, r)) == Prepend(a + b, r)
    {
    }

    /** One entry, after the blanks before it. */
    method ParseEntry(token0: Token) returns (token: Token)
      requires Valid() && Rest() != "" && Rest()[0] != '}' && Rest()[0] != ' ' && ReadFields(token0, Rest()).Fields?
      modifies this`index, this`ch
      ensures Valid() && ReadFields(token, Rest()) == ReadFields(token0, old(Rest())) && |Rest()| < |old(Rest())|
    {
      hide Valid, Rest, SkipBlanks, LetterPrefix, Eat, ReadValue;
      NoBlanks(Rest());
      var key := ParseKey();
      var _ := ParseChars(": \"");
      ghost var body := Rest();
      ValueEnds(body, false);
      var value := ParseValue();
      var _ := ParseChar('\"');
      token := token0.(order := token0.order + [key], members := token0.members[key := value]);
      assert token == WithEntry(token0, key, value);
    }

    static lemma NoBlanks(rest: string)
      requires rest != "" && rest[0] != ' '
      ensures SkipBlanks(rest) == rest
    {
    }

    method ParseToken() returns (token: Token)
      requires Valid() && Rest() != "" && !Whitespace(Rest()[0]) && ReadToken(Rest()).Fields?
      modifies this`index, this`ch
      ensures Valid() && ReadToken(old(Rest())) == Fields(token, Rest())
    {
      hide Valid, Rest, SkipBlanks, LetterPrefix, Eat, Whitespace, ReadFields;
      var name := ParseKey();
      var _ := ParseChars(" { ");
      token := Token(name, [], map[]);
      ghost var read := ReadFields(token, Rest());
      Entered(token, Rest());
      var more := ParseWs();
      while more
        invariant Valid() && (more <==> Rest() != "") && SkipBlanks(Rest()) == Rest()
        invariant ReadFields(token, Rest()) == read
        decreases |Rest()|
      {
        Here();
        if ch == At('}') {
          Closed(token, Rest());
          var _ := ParseChar('}');
          break;
        }
        NotBlank(Rest());
        token := ParseEntry(token);
        Entered(token, Rest());
        more := ParseWs();
      }
      if !more { NoMore(token, Rest()); }
    }

    /** Printed tokens are read back as they are; they are added to those read before. */
    method Parse(input: string)
      requires input != "" && ReadTokens(input).Tokens?
      modifies this`index, this`ch, this`text, this`tokens
      ensures tokens == old(tokens) + ReadTokens(input).tokens
    {
      hide Valid, Rest, SkipBlanks, ReadToken, Whitespace;
      Load(input);
      assert old(tokens) + ReadTokens(input).tokens == tokens + ReadTokens(Rest()).tokens;
      Started(Rest());
      var more := ParseWs();
      while more
        invariant Valid() && (more <==> Rest() != "") && SkipBlanks(Rest()) == Rest() && ReadTokens(Rest()).Tokens?
        invariant tokens + ReadTokens(Rest()).tokens == old(tokens) + ReadTokens(input).tokens
        decreases |Rest()|
      {
        ghost var was, rest := tokens, Rest();
        var token := ParseToken();
        tokens := tokens + [token];
        assert was + ReadTokens(rest).tokens == tokens + ReadTokens(Rest()).tokens;
        Started(Rest());
        more := ParseWs();
      }
      assert tokens + [] == tokens;
    }

    static lemma Entered(token: Token, rest: string)
      ensures SkipBlanks(SkipBlanks(rest)) == SkipBlanks(rest)
              && ReadFields(token, SkipBlanks(rest)) == ReadFields(token, rest)
    {
      if SkipBlanks(rest) != "" { NoBlanks(SkipBlanks(rest)); }
      BlanksSkipped(token, rest, SkipBlanks(rest));
    }

    static lemma Started(rest: string)
      ensures SkipBlanks(SkipBlanks(rest)) == SkipBlanks(rest) && ReadTokens(SkipBlanks(rest)) == ReadTokens(rest)
    {
      if SkipBlanks(rest) != "" { NoBlanks(SkipBlanks(rest)); }
    }

    static lemma NotBlank(rest: string)
      requires rest != "" && SkipBlanks(rest) == rest
      ensures rest[0] != ' '
    {
    }

    static lemma Closed(token: Token, rest: string)
      requires rest != "" && rest[0] == '}'
      ensures ReadFields(token, rest) == Fields(token, rest[1..])
    {
    }

    static lemma NoMore(token: Token, rest: string)
      requires rest == ""
      ensures ReadFields(token, rest) == Fields(token, rest)
    {
    }

    // ---------- printing ----------

    /** `Token::string`: the table's order replaces the token's own. */
    method TokenString(i: nat) returns (output: string)
      requires i < |tokens|
      modifies this`tokens
      ensures output == Print(old(tokens)[i], orders)
      ensures tokens == old(tokens)[i := Ordered(old(tokens)[i], orders)]
    {
      hide Entry;
      output := tokens[i].name + " {";
      if tokens[i].name in orders {
        tokens := tokens[i := tokens[i].(order := orders[tokens[i].name])];
      }
      var t := tokens[i];
      ghost var head := output;
      var k: nat := 0;
      while k < |t.order|
        invariant k <= |t.order| && output + Entries(t.order[k..], t.members) == head + Entries(t.order, t.members)
      {
        var key := t.order[k];
        assert t.order[k..][1..] == t.order[k + 1..];
        ghost var was := output;
        if key in t.members {
          output := output + " " + key + ": \"" + t.members[key] + "\"";
          assert output == was + Entry(key, t.members[key]) by { EntryText(was, key, t.members[key]); }
        }
        k := k + 1;
      }
      assert Entries(t.order[k..], t.members) == "";
      output := output + " }";
    }

    static lemma EntryText(s: string, key: string, value: string)
      ensures s + " " + key + ": \"" + value + "\"" == s + Entry(key, value)
    {
    }

    /** The tokens of the input are added to those held, and all are printed in the orders of the table
        (itn-token-parser.cpp:148-155). */
    method Reorder(input: string) returns (output: string)
      requires input != "" && ReadTokens(input).Tokens?
      modifies this`index, this`ch, this`text, this`tokens
      ensures var all := old(tokens) + ReadTokens(input).tokens;
              output == Trim(Spaced(all, orders)) && tokens == OrderedAll(all, orders)
    {
      hide Trim, Spaced, Ordered, ReadTokens;
      Parse(input);
      output := PrintTokens();
      output := Trim(output);
    }

    method PrintTokens() returns (output: string)
      modifies this`tokens
      ensures output == Spaced(old(tokens), orders) && tokens == OrderedAll(old(tokens), orders)
    {
      hide Print, Ordered;
      ghost var us := tokens;
      output := "";
      var i: nat := 0;
      while i < |tokens|
        invariant i <= |tokens| == |us| && (forall k :: i <= k < |us| ==> tokens[k] == us[k])
        invariant forall k :: 0 <= k < i ==> tokens[k] == Ordered(us[k], orders)
        invariant output == Spaced(us[..i], orders)
      {
        var s := TokenString(i);
        SpacedSnoc(us, i, orders);
        output := output + (s + " ");
        i := i + 1;
      }
      assert us[..i] == us;
    }
  }
}
