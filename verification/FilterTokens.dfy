/** The test runner's splitting of a comma-separated option, where a backslash escapes. */
module FilterTokens {
  import opened Outcomes
  import opened Bytes

  /** The tokens found, the one being read, and whether a backslash is pending. */
  datatype State = State(tokens: seq<string>, current: string, seenBackslash: bool)

  const START := State([], "", false)

  /** An empty token is dropped. */
  function Flush(st: State): State {
    st.(tokens := if st.current != "" then st.tokens + [st.current] else st.tokens, current := "")
  }

  function FeedPlain(st: State, c: char): State {
    if c == '\\' then st.(seenBackslash := true)
    else if c == ',' then Flush(st)
    else st.(current := st.current + [c])
  }

  /** One character: a pending backslash escapes a comma or a backslash and otherwise stands for itself. */
  function Feed(st: State, c: char): State {
    if !st.seenBackslash then FeedPlain(st, c)
    else if c == ',' || c == '\\' then st.(seenBackslash := false, current := st.current + [c])
    else FeedPlain(st.(seenBackslash := false, current := st.current + ['\\']), c)
  }

  function FeedAll(st: State, s: string): State
    decreases |s|
  {
    if s == "" then st else FeedAll(Feed(st, s[0]), s[1..])
  }

  function Finish(st: State): seq<string> {
    Flush(if st.seenBackslash then st.(current := st.current + ['\\']) else st).tokens
  }

  function Tokens(s: string): seq<string> { Finish(FeedAll(START, s)) }

  lemma {:induction false} FeedConcat(st: State, s: string, t: string)
    ensures FeedAll(st, s + t) == FeedAll(FeedAll(st, s), t)
    decreases |s|
  {
    if s == "" {
      assert s + t == t;
    } else {
      assert (s + t)[1..] == s[1..] + t;
      FeedConcat(Feed(st, s[0]), s[1..], t);
    }
  }

  /** The loop over the option's value; None stands for an option that was not given. */
  method ParseCommaSepArgs(value: Option<string>) returns (found: bool, res: seq<string>)
    ensures found == value.Some?
    ensures res == if value.Some? then Tokens(value.value) else []
    ensures value.Some? ==> res == NonEmpty(Parts(value.value))
  {
    res := [];
    if value.None? {
      return false, res;
    }
    var text := value.value;
    TokensAreParts(text);
    var s: string := "";
    var seenBackslash := false;
    var current := 0;
    assert text[..0] == "";
    while current != |text|
      invariant 0 <= current <= |text|
      invariant State(res, s, seenBackslash) == FeedAll(START, text[..current])
      decreases |text| - current
    {
      var character := text[current];
      assert text[..current + 1] == text[..current] + [character];
      FeedConcat(START, text[..current], [character]);
      FeedOne(State(res, s, seenBackslash), character);
      current := current + 1;
      if seenBackslash {
        seenBackslash := false;
        if character == ',' || character == '\\' {
          s := s + [character];
          continue;
        }
        s := s + ['\\'];
      }
      if character == '\\' {
        seenBackslash := true;
      } else if character == ',' {
        if |s| > 0 {
          res := res + [s];
        }
        s := "";
      } else {
        s := s + [character];
      }
    }
    assert text[..current] == text;
    if seenBackslash {
      s := s + ['\\'];
    }
    if |s| > 0 {
      res := res + [s];
    }
    return true, res;
  }

  lemma FeedOne(st: State, c: char)
    ensures FeedAll(st, [c]) == Feed(st, c)
  {
    assert [c][1..] == "";
  }

  // ----- The inverse -----

  function EscapeToken(t: string): string {
    if t == "" then ""
    else (if t[0] == ',' || t[0] == '\\' then ['\\', t[0]] else [t[0]]) + EscapeToken(t[1..])
  }

  /** The value that lists the tokens: escaped, with commas between them. */
  function Join(tokens: seq<string>): string {
    if tokens == [] then ""
    else if |tokens| == 1 then EscapeToken(tokens[0])
    else EscapeToken(tokens[0]) + "," + Join(tokens[1..])
  }

  function Entry(t: string): seq<string> { if t == "" then [] else [t] }

  function NonEmpty(tokens: seq<string>): seq<string> {
    if tokens == [] then [] else Entry(tokens[0]) + NonEmpty(tokens[1..])
  }

  lemma {:induction false} FeedEscaped(st: State, t: string)
    requires !st.seenBackslash
    ensures FeedAll(st, EscapeToken(t)) == st.(current := st.current + t)
    decreases |t|
  {
    if t == "" {
      assert st.current + t == st.current;
    } else {
      var head := if t[0] == ',' || t[0] == '\\' then ['\\', t[0]] else [t[0]];
      var st' := st.(current := st.current + [t[0]]);
      FeedConcat(st, head, EscapeToken(t[1..]));
      assert FeedAll(st, head) == st' by {
        FeedOne(st, t[0]);
        if |head| == 2 {
          assert head[1..] == [t[0]];
          FeedOne(Feed(st, '\\'), t[0]);
        }
      }
      FeedEscaped(st', t[1..]);
      assert st.current + t == st.current + [t[0]] + t[1..];
    }
  }

  /** At the end of an entry the token is found, unless it is empty. */
  lemma FlushEntry(st: State, t: string)
    requires st.current == ""
    ensures Flush(st.(current := t)) == st.(tokens := st.tokens + Entry(t))
  {
    if t == "" {
      assert st.tokens + [] == st.tokens;
    }
  }

  lemma FeedLast(st: State, t: string)
    requires !st.seenBackslash && st.current == ""
    ensures Finish(FeedAll(st, EscapeToken(t))) == st.tokens + Entry(t)
  {
    FeedEscaped(st, t);
    assert "" + t == t;
    FlushEntry(st, t);
  }

  lemma FeedEntry(st: State, t: string, more: string)
    requires !st.seenBackslash && st.current == ""
    ensures FeedAll(st, EscapeToken(t) + "," + more) == FeedAll(st.(tokens := st.tokens + Entry(t)), more)
  {
    FeedConcat(st, EscapeToken(t) + ",", more);
    FeedConcat(st, EscapeToken(t), ",");
    FeedEscaped(st, t);
    assert "" + t == t;
    FeedOne(st.(current := t), ',');
    FlushEntry(st, t);
  }

  /** An entry and a comma in front of a value that was read. */
  lemma FeedMore(st: State, first: string, more: string, found: seq<string>)
    requires !st.seenBackslash && st.current == ""
    requires
      var read := st.tokens + Entry(first);
      Finish(FeedAll(st.(tokens := read), more)) == read + found
    ensures Finish(FeedAll(st, EscapeToken(first) + "," + more)) == st.tokens + (Entry(first) + found)
  {
    FeedEntry(st, first, more);
    Assoc(st.tokens, Entry(first), found);
  }

  lemma {:induction false} FeedJoined(st: State, tokens: seq<string>)
    requires !st.seenBackslash && st.current == ""
    ensures Finish(FeedAll(st, Join(tokens))) == st.tokens + NonEmpty(tokens)
    decreases |tokens|
  {
    if tokens == [] {
      assert st.tokens + [] == st.tokens;
    } else {
      var first, rest := tokens[0], tokens[1..];
      if rest == [] {
        FeedLast(st, first);
        assert Entry(first) + NonEmpty(rest) == Entry(first);
      } else {
        FeedJoined(st.(tokens := st.tokens + Entry(first)), rest);
        FeedMore(st, first, Join(rest), NonEmpty(rest));
      }
    }
  }

  /** Splitting a joined list gives the list back, without its empty entries. */
  lemma TokensOfJoined(tokens: seq<string>)
    ensures Tokens(Join(tokens)) == NonEmpty(tokens)
  {
    FeedJoined(START, tokens);
    assert [] + NonEmpty(tokens) == NonEmpty(tokens);
  }

  predicate NoneEmpty(tokens: seq<string>) { forall i :: 0 <= i < |tokens| ==> tokens[i] != "" }

  lemma {:induction false} NonEmptyKeepsAll(tokens: seq<string>)
    ensures |NonEmpty(tokens)| <= |tokens|
    ensures NonEmpty(tokens) == tokens <==> NoneEmpty(tokens)
  {
    if tokens != [] {
      var rest := tokens[1..];
      NonEmptyKeepsAll(rest);
      assert tokens == [tokens[0]] + rest;
      assert NoneEmpty(tokens) <==> tokens[0] != "" && NoneEmpty(rest);
      if tokens[0] != "" {
        assert NonEmpty(tokens)[1..] == NonEmpty(rest);
      }
    }
  }

  /** Splitting inverts joining exactly for the lists without empty entries. */
  lemma SplitInvertsJoin(tokens: seq<string>)
    ensures Tokens(Join(tokens)) == tokens <==> NoneEmpty(tokens)
  {
    TokensOfJoined(tokens);
    NonEmptyKeepsAll(tokens);
  }

  /** A list with an empty entry, which splitting does not give back. */
  lemma EmptyEntryWitness()
    ensures Tokens(Join(["a", "", "b"])) == ["a", "b"]
  {
    var tokens := ["a", "", "b"];
    TokensOfJoined(tokens);
    assert tokens[1..] == ["", "b"] && ["", "b"][1..] == ["b"] && ["b"][1..] == [];
    assert NonEmpty(["b"]) == ["b"];
    assert NonEmpty(["", "b"]) == ["b"];
  }

  // ----- Splitting any value -----

  predicate IsSpecial(c: char) { c == ',' || c == '\\' }

  /** The value starts with a backslash that escapes a comma or a backslash. */
  predicate StartsEscaped(s: string) { |s| > 1 && s[0] == '\\' && IsSpecial(s[1]) }

  function Prepend(c: char, parts: seq<string>): seq<string>
    requires |parts| > 0
  {
    [[c] + parts[0]] + parts[1..]
  }

  /** The parts between the commas that are not escaped, without the backslashes that escape something. */
  function Parts(s: string): (parts: seq<string>)
    ensures |parts| > 0
    decreases |s|
  {
    if s == "" then [""]
    else if StartsEscaped(s) then Prepend(s[1], Parts(s[2..]))
    else if s[0] == ',' then [""] + Parts(s[1..])
    else Prepend(s[0], Parts(s[1..]))
  }

  /** What reading on from the state finds in the parts, the first of them begun already. */
  function Found(st: State, parts: seq<string>): seq<string>
    requires |parts| > 0
  {
    st.tokens + (Entry(st.current + parts[0]) + NonEmpty(parts[1..]))
  }

  lemma FoundPrepend(st: State, c: char, parts: seq<string>)
    requires |parts| > 0
    ensures Found(st, Prepend(c, parts)) == Found(st.(current := st.current + [c]), parts)
  {
    Assoc(st.current, [c], parts[0]);
  }

  lemma FoundComma(st: State, parts: seq<string>)
    requires |parts| > 0
    ensures Found(st, [""] + parts) == Found(Flush(st), parts)
  {
    assert st.current + "" == st.current && "" + parts[0] == parts[0];
    assert ([""] + parts)[1..] == parts;
    if st.current == "" {
      assert Entry("") + NonEmpty(parts) == NonEmpty(parts);
    } else {
      Assoc(st.tokens, Entry(st.current), NonEmpty(parts));
    }
  }

  lemma FoundAtEnd(st: State)
    requires !st.seenBackslash
    ensures Finish(st) == Found(st, [""])
    ensures Finish(Feed(st, '\\')) == Found(st, Prepend('\\', [""]))
  {
    assert st.tokens + [] == st.tokens;
    assert forall t: string :: Entry(t) + [] == Entry(t);
    assert st.current + "" == st.current;
    assert ['\\'] + "" == ['\\'];
  }

  /** A backslash and the character after it: one literal character, or two. */
  lemma FeedPair(st: State, c: char)
    requires !st.seenBackslash
    ensures IsSpecial(c) ==> Feed(Feed(st, '\\'), c) == st.(current := st.current + [c])
    ensures !IsSpecial(c) ==> Feed(Feed(st, '\\'), c) == st.(current := st.current + ['\\'] + [c])
  {
  }

  lemma FeedTwo(st: State, s: string)
    requires |s| > 1
    ensures FeedAll(st, s) == FeedAll(Feed(Feed(st, s[0]), s[1]), s[2..])
  {
    assert s[1..][1..] == s[2..];
  }

  lemma {:induction false} FeedParts(st: State, s: string)
    requires !st.seenBackslash
    ensures Finish(FeedAll(st, s)) == Found(st, Parts(s))
    decreases |s|
  {
    if s == "" {
      FoundAtEnd(st);
    } else if s[0] != '\\' {
      FeedParts(Feed(st, s[0]), s[1..]);
      if s[0] == ',' {
        FoundComma(st, Parts(s[1..]));
      } else {
        FoundPrepend(st, s[0], Parts(s[1..]));
      }
    } else if |s| == 1 {
      FoundAtEnd(st);
      assert s[1..] == "";
    } else {
      var c, parts := s[1], Parts(s[2..]);
      FeedPair(st, c);
      FeedTwo(st, s);
      FeedParts(Feed(Feed(st, '\\'), c), s[2..]);
      if IsSpecial(c) {
        FoundPrepend(st, c, parts);
      } else {
        assert s[1..][1..] == s[2..];
        FoundPrepend(st, '\\', Prepend(c, parts));
        FoundPrepend(st.(current := st.current + ['\\']), c, parts);
      }
    }
  }

  /**
    What any value splits into: its parts between unescaped commas, with the
    empty ones left out. A backslash that is not before a comma or a backslash
    stands for itself, at the end of the value too.
   */
  lemma TokensAreParts(s: string)
    ensures Tokens(s) == NonEmpty(Parts(s))
  {
    FeedParts(START, s);
    FoundFromStart(Parts(s));
  }

  lemma FoundFromStart(parts: seq<string>)
    requires |parts| > 0
    ensures Found(START, parts) == NonEmpty(parts)
  {
    assert "" + parts[0] == parts[0];
    assert [] + (Entry(parts[0]) + NonEmpty(parts[1..])) == Entry(parts[0]) + NonEmpty(parts[1..]);
  }

  /** A value with no comma and nothing escaped, such as a path with single backslashes, is one token. */
  lemma {:induction false} PlainValueIsOnePart(s: string)
    requires ',' !in s && forall i :: 0 <= i < |s| - 1 && s[i] == '\\' ==> s[i + 1] != '\\'
    ensures Parts(s) == [s]
  {
    if s != "" {
      assert forall i :: 0 <= i < |s[1..]| ==> s[1..][i] == s[i + 1];
      assert |s| > 1 && s[0] == '\\' ==> s[0 + 1] != '\\' && s[1] in s;
      PlainValueIsOnePart(s[1..]);
      assert [s[0]] + s[1..] == s;
    }
  }

  lemma {:induction false} FedTokensAreNonEmpty(st: State, s: string)
    requires NoneEmpty(st.tokens)
    ensures NoneEmpty(FeedAll(st, s).tokens)
    decreases |s|
  {
    if s != "" {
      FedTokensAreNonEmpty(Feed(st, s[0]), s[1..]);
    }
  }

  /** Joining is a normal form: joining what any value split into, and splitting again, changes nothing. */
  lemma JoinIsNormalForm(s: string)
    ensures Tokens(Join(Tokens(s))) == Tokens(s)
  {
    FedTokensAreNonEmpty(START, s);
    SplitInvertsJoin(Tokens(s));
  }
}
