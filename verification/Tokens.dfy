/** Words separated by spaces: the shell's request parser. */
module Tokens {
  import opened Options

  const CMD_NARGS := 16
  const CMD_ARG_LEN := 32

  /** Length of the word that s starts with. */
  function WordLength(s: string): (n: nat)
    ensures n <= |s|
    ensures forall i :: 0 <= i < n ==> s[i] != ' '
    ensures n < |s| ==> s[n] == ' '
  {
    if s == "" || s[0] == ' ' then 0 else 1 + WordLength(s[1..])
  }

  /** The maximal runs of characters other than space. */
  function Words(s: string): seq<string>
    decreases |s|
  {
    if s == "" then []
    else if s[0] == ' ' then Words(s[1..])
    else [s[..WordLength(s)]] + Words(s[WordLength(s)..])
  }

  predicate EndsInWord(s: string) {
    s != "" && s[|s| - 1] != ' '
  }

  /** One more character: a space changes no word, any other character extends the last word
      or starts a new one. */
  function Extended(ws: seq<string>, inWord: bool, c: char): seq<string> {
    if c == ' ' then ws
    else if inWord && ws != [] then ws[|ws| - 1 := ws[|ws| - 1] + [c]]
    else ws + [[c]]
  }

  lemma {:induction false} WordsSnoc(s: string, c: char)
    ensures EndsInWord(s) ==> Words(s) != []
    ensures Words(s + [c]) == Extended(Words(s), EndsInWord(s), c)
    decreases |s|
  {
    if s == "" {
      assert Words([c]) == if c == ' ' then [] else [[c]] by {
        assert [c][1..] == "";
        if c != ' ' {
          assert WordLength([c]) == 1;
          assert [c][..1] == [c];
        }
      }
      assert s + [c] == [c];
    } else if s[0] == ' ' {
      WordsSnoc(s[1..], c);
      assert (s + [c])[1..] == s[1..] + [c];
    } else {
      WordsSnocInWord(s, c);
    }
  }

  lemma {:induction false} WordsSnocInWord(s: string, c: char)
    requires s != "" && s[0] != ' '
    ensures EndsInWord(s) ==> Words(s) != []
    ensures Words(s + [c]) == Extended(Words(s), EndsInWord(s), c)
    decreases |s|, 0
  {
    var n := WordLength(s);
    WordLengthSnoc(s, c);
    if n == |s| {
      OneWordSnoc(s, c);
    } else {
      var w, rest := s[..n], s[n..];
      WordsSnoc(rest, c);
      FirstWord(s, w, rest);
      assert s + [c] == w + (rest + [c]);
      FirstWord(s + [c], w, rest + [c]);
    }
  }

  /** Splitting off the first word. */
  lemma FirstWord(s: string, w: string, rest: string)
    requires w != "" && s == w + rest && WordLength(s) == |w|
    ensures Words(s) == [w] + Words(rest)
  {
    assert s[..|w|] == w && s[|w|..] == rest;
  }

  lemma OneWordSnoc(s: string, c: char)
    requires s != "" && WordLength(s) == |s| && WordLength(s + [c]) == if c == ' ' then |s| else |s| + 1
    ensures Words(s) == [s] && Words(s + [c]) == if c == ' ' then [s] else [s + [c]]
  {
    assert s == s + "";
    FirstWord(s, s, "");
    if c == ' ' {
      FirstWord(s + [c], s, [c]);
      assert [c][1..] == "";
    } else {
      var t := s + [c];
      assert t == t + "";
      FirstWord(t, t, "");
    }
  }

  lemma {:induction false} WordLengthSnoc(s: string, c: char)
    ensures WordLength(s + [c]) == if WordLength(s) < |s| || c == ' ' then WordLength(s) else |s| + 1
  {
    if s == "" {
      assert s + [c] == [c];
      assert [c][1..] == "";
    } else {
      assert (s + [c])[1..] == s[1..] + [c];
      if s[0] != ' ' {
        WordLengthSnoc(s[1..], c);
      }
    }
  }

  // ------------------------------------------------------------- parse_request

  /** argv: CMD_NARGS rows of CMD_ARG_LEN characters. */
  datatype Request = Request(argc: nat, argv: seq<string>)

  /** A word in a row, the rest of which is null characters. */
  function Row(w: string): string
    requires |w| <= CMD_ARG_LEN
  {
    w + seq(CMD_ARG_LEN - |w|, _ => '\0')
  }

  /** What fits: words of up to 31 characters, up to 15 of them, or 16 if nothing follows the
      last one. */
  predicate Acceptable(s: string) {
    && (forall w :: w in Words(s) ==> |w| < CMD_ARG_LEN)
    && (|Words(s)| < CMD_NARGS || (|Words(s)| == CMD_NARGS && EndsInWord(s)))
  }

  /** More input does not make up for what does not fit. */
  lemma UnacceptableSnoc(s: string, c: char)
    requires !Acceptable(s)
    ensures !Acceptable(s + [c])
  {
    WordsSnoc(s, c);
    var ws, ws' := Words(s), Words(s + [c]);
    if w :| w in ws && |w| >= CMD_ARG_LEN {
      var k :| 0 <= k < |ws| && ws[k] == w;
      assert ws'[k] in ws' && |ws'[k]| >= CMD_ARG_LEN;
    }
  }

  lemma {:induction false} UnacceptablePrefix(s: string, i: nat)
    requires i <= |s| && !Acceptable(s[..i])
    ensures !Acceptable(s)
    decreases |s| - i
  {
    if i == |s| {
      assert s[..i] == s;
    } else {
      assert s[..i + 1] == s[..i] + [s[i]];
      UnacceptableSnoc(s[..i], s[i]);
      UnacceptablePrefix(s, i + 1);
    }
  }

  /** The rows hold the words ws. */
  predicate RowsHold(argv: seq<string>, ws: seq<string>) {
    && |argv| == CMD_NARGS
    && |ws| <= CMD_NARGS
    && (forall k :: 0 <= k < |ws| ==> |ws[k]| < CMD_ARG_LEN)
    && (forall k :: 0 <= k < CMD_NARGS ==> argv[k] == Row(if k < |ws| then ws[k] else ""))
  }

  /** What the parser has done with s: idx characters of word nargs are in row nargs. */
  predicate Parsed(s: string, argv: seq<string>, nargs: nat, idx: nat) {
    && RowsHold(argv, Words(s))
    && nargs < CMD_NARGS && idx < CMD_ARG_LEN
    && (if EndsInWord(s) then |Words(s)| == nargs + 1 && idx == |Words(s)[nargs]| && idx > 0
        else |Words(s)| == nargs && idx == 0)
  }

  /** parse_request: accepts exactly what fits, and then argv is the words in order. */
  method ParseRequest(buf: string) returns (r: Option<Request>)
    ensures r.Some? <==> Acceptable(buf)
    ensures r.Some? ==> r.value.argc == |Words(buf)| && RowsHold(r.value.argv, Words(buf))
  {
    var idx, nargs := 0, 0;
    var argv := seq(CMD_NARGS, _ => seq(CMD_ARG_LEN, _ => '\0'));
    var i := 0;
    assert Row("") == seq(CMD_ARG_LEN, _ => '\0');
    while i < |buf|
      invariant 0 <= i <= |buf| && Parsed(buf[..i], argv, nargs, idx)
    {
      assert buf[..i + 1] == buf[..i] + [buf[i]];
      if buf[i] != ' ' {
        CharacterParsed(buf[..i], buf[i], argv, nargs, idx);
        argv := argv[nargs := argv[nargs][idx := buf[i]]];
        idx := idx + 1;
        if idx >= CMD_ARG_LEN {
          UnacceptablePrefix(buf, i + 1);
          return None;
        }
      } else if idx != 0 {
        SpaceParsed(buf[..i], argv, nargs, idx);
        argv := argv[nargs := argv[nargs][idx := '\0']];
        idx := 0;
        nargs := nargs + 1;
        if nargs >= CMD_NARGS {
          UnacceptablePrefix(buf, i + 1);
          return None;
        }
      } else {
        WordsSnoc(buf[..i], ' ');
      }
      i := i + 1;
    }
    assert buf[..i] == buf;
    return Some(Request(if idx != 0 then nargs + 1 else nargs, argv));
  }

  lemma CharacterParsed(s: string, c: char, argv: seq<string>, nargs: nat, idx: nat)
    requires Parsed(s, argv, nargs, idx) && c != ' '
    ensures idx < |argv[nargs]|
    ensures idx + 1 < CMD_ARG_LEN ==> Parsed(s + [c], argv[nargs := argv[nargs][idx := c]], nargs, idx + 1)
    ensures idx + 1 >= CMD_ARG_LEN ==> !Acceptable(s + [c])
  {
    WordsSnoc(s, c);
    var ws, ws' := Words(s), Words(s + [c]);
    var w := if idx == 0 then "" else ws[nargs];
    assert argv[nargs] == Row(w);
    assert ws'[nargs] == w + [c] && ws'[nargs] in ws';
    if idx + 1 < CMD_ARG_LEN {
      assert argv[nargs][idx := c] == Row(w + [c]);
    }
  }

  lemma SpaceParsed(s: string, argv: seq<string>, nargs: nat, idx: nat)
    requires Parsed(s, argv, nargs, idx) && idx != 0
    ensures idx < |argv[nargs]|
    ensures nargs + 1 < CMD_NARGS ==> Parsed(s + " ", argv[nargs := argv[nargs][idx := '\0']], nargs + 1, 0)
    ensures nargs + 1 >= CMD_NARGS ==> !Acceptable(s + " ")
  {
    WordsSnoc(s, ' ');
    assert argv[nargs][idx := '\0'] == argv[nargs];
    assert argv[nargs := argv[nargs]] == argv;
  }

  // ------------------------------------------------------------------ round trip

  function Join(ws: seq<string>): string {
    if ws == [] then "" else if |ws| == 1 then ws[0] else ws[0] + " " + Join(ws[1..])
  }

  predicate IsWord(w: string) {
    w != "" && ' ' !in w
  }

  lemma {:induction false} WordLengthOf(w: string, rest: string)
    requires ' ' !in w && (rest == "" || rest[0] == ' ')
    ensures WordLength(w + rest) == |w|
  {
    if w != "" {
      assert (w + rest)[1..] == w[1..] + rest;
      WordLengthOf(w[1..], rest);
    } else {
      assert w + rest == rest;
    }
  }

  /** A word and what follows it. */
  lemma WordsOfWord(w: string, rest: string)
    requires IsWord(w) && (rest == "" || rest[0] == ' ')
    ensures Words(w + rest) == [w] + Words(rest)
  {
    WordLengthOf(w, rest);
    assert (w + rest)[..|w|] == w && (w + rest)[|w|..] == rest;
  }

  lemma LeadingSpace(s: string)
    ensures Words(" " + s) == Words(s)
  {
    assert (" " + s)[1..] == s;
  }

  lemma {:induction false} WordsOfJoin(ws: seq<string>)
    requires forall w :: w in ws ==> IsWord(w)
    ensures Words(Join(ws)) == ws
  {
    if |ws| == 1 {
      WordsOfWord(ws[0], "");
      assert ws[0] + "" == ws[0];
    } else if |ws| > 1 {
      var rest := Join(ws[1..]);
      WordsOfJoin(ws[1..]);
      LeadingSpace(rest);
      WordsOfWord(ws[0], " " + rest);
      assert Join(ws) == ws[0] + (" " + rest);
    }
  }

  lemma {:induction false} JoinEndsInWord(ws: seq<string>)
    requires ws != [] && forall w :: w in ws ==> IsWord(w)
    ensures EndsInWord(Join(ws))
  {
    if |ws| > 1 {
      JoinEndsInWord(ws[1..]);
    } else {
      assert ws[0] in ws;
    }
  }

  /** Joining any acceptable list of words with single spaces and parsing the result gives the
      list back. */
  lemma JoinIsAcceptable(ws: seq<string>)
    requires forall w :: w in ws ==> IsWord(w)
    ensures Words(Join(ws)) == ws
    ensures Acceptable(Join(ws)) <==> |ws| <= CMD_NARGS && forall w :: w in ws ==> |w| < CMD_ARG_LEN
  {
    WordsOfJoin(ws);
    if ws != [] {
      JoinEndsInWord(ws);
    }
  }
}
