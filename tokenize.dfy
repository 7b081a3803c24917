/**
 * Splitting an input line of the co-occurrence builder into names: split at
 * commas with runs of adjacent commas merged into one separator, then strip
 * surrounding white space from every piece.
 */
module Tokenize {

  /** White space in the classic C locale: space, tab, newline, vertical tab, form feed, carriage return. */
  predicate IsSpace(c: char) {
    c == ' ' || ('\t' <= c <= '\r')
  }

  /** Drop leading white space. */
  function TrimStart(s: string): (r: string)
    ensures |r| <= |s| && r == s[|s| - |r|..]
    ensures forall k :: 0 <= k < |s| - |r| ==> IsSpace(s[k])
    ensures r == [] || !IsSpace(r[0])
  {
    if s != [] && IsSpace(s[0]) then TrimStart(s[1..]) else s
  }

  /** Drop trailing white space. */
  function TrimEnd(s: string): (r: string)
    ensures |r| <= |s| && r == s[..|r|]
    ensures forall k :: |r| <= k < |s| ==> IsSpace(s[k])
    ensures r == [] || !IsSpace(r[|r| - 1])
  {
    if s != [] && IsSpace(s[|s| - 1]) then TrimEnd(s[..|s| - 1]) else s
  }

  /** Drop white space at both ends. */
  function Trim(s: string): (r: string)
    ensures |r| <= |s|
    ensures r == [] || (!IsSpace(r[0]) && !IsSpace(r[|r| - 1]))
  {
    TrimEnd(TrimStart(s))
  }

  /** The trimmed string is the slice of `s` between its leading and its trailing white space. */
  lemma TrimShape(s: string)
    ensures exists i, j ::
              && 0 <= i <= j <= |s| && Trim(s) == s[i..j]
              && (forall k :: 0 <= k < i ==> IsSpace(s[k]))
              && (forall k :: j <= k < |s| ==> IsSpace(s[k]))
  {
    var t := TrimStart(s);
    var r := TrimEnd(t);
    var i := |s| - |t|;
    var j := i + |r|;
    assert Trim(s) == s[i..j] by {
      assert t == s[i..] && r == t[..|r|];
    }
    assert forall k :: j <= k < |s| ==> IsSpace(s[k]) by {
      forall k | j <= k < |s|
        ensures IsSpace(s[k])
      {
        assert s[k] == t[k - i];
      }
    }
  }

  /**
   * Split at commas, a run of adjacent commas counting as one separator. A
   * leading or trailing comma still yields an empty first or last piece, and
   * the empty line yields one empty piece.
   */
  function Split(s: string): (r: seq<string>)
    ensures |r| >= 1
    decreases |s|
  {
    if s == [] then [[]]
    else if s[0] == ',' then
      if |s| >= 2 && s[1] == ',' then Split(s[1..]) else [[]] + Split(s[1..])
    else
      var rest := Split(s[1..]);
      [[s[0]] + rest[0]] + rest[1..]
  }

  /**
   * `r` has the shape of a split of `s`: its pieces hold no comma; only the
   * first and the last may be empty, the first exactly when `s` starts with a
   * comma or is empty, the last exactly when it ends with a comma or is empty;
   * and there is more than one piece exactly when `s` has a comma.
   */
  ghost predicate SplitsAs(s: string, r: seq<string>) {
    && |r| >= 1
    && (forall i :: 0 <= i < |r| ==> ',' !in r[i])
    && (forall i :: 0 < i < |r| - 1 ==> r[i] != [])
    && (r[0] == [] <==> s == [] || s[0] == ',')
    && (r[|r| - 1] == [] <==> s == [] || s[|s| - 1] == ',')
    && (|r| >= 2 <==> ',' in s)
  }

  lemma {:induction false} SplitShape(s: string)
    ensures SplitsAs(s, Split(s))
    decreases |s|
  {
    if s != [] {
      SplitShape(s[1..]);
      if s[0] != ',' {
        CharFirst(s, Split(s[1..]));
      } else if |s| >= 2 && s[1] == ',' {
        CommaRun(s, Split(s[1..]));
      } else {
        CommaFirst(s, Split(s[1..]));
      }
    }
  }

  lemma CommaRun(s: string, rest: seq<string>)
    requires |s| >= 2 && s[0] == ',' && s[1] == ',' && SplitsAs(s[1..], rest)
    ensures SplitsAs(s, rest)
  {
    assert s[|s| - 1] == s[1..][|s| - 2];
    assert ',' in s[1..];
  }

  lemma CommaFirst(s: string, rest: seq<string>)
    requires s != [] && s[0] == ',' && !(|s| >= 2 && s[1] == ',') && SplitsAs(s[1..], rest)
    ensures SplitsAs(s, [[]] + rest)
  {
    var r := [[]] + rest;
    assert forall i :: 1 <= i < |r| ==> r[i] == rest[i - 1];
    if |s| > 1 {
      assert s[|s| - 1] == s[1..][|s| - 2];
      assert rest[0] != [];
    }
  }

  lemma CharFirst(s: string, rest: seq<string>)
    requires s != [] && s[0] != ',' && SplitsAs(s[1..], rest)
    ensures SplitsAs(s, [[s[0]] + rest[0]] + rest[1..])
  {
    var r := [[s[0]] + rest[0]] + rest[1..];
    assert forall i :: 1 <= i < |r| ==> r[i] == rest[i];
    assert ',' !in r[0];
    if |s| > 1 {
      assert s[|s| - 1] == s[1..][|s| - 2];
    }
    assert ',' in s <==> ',' in s[1..] by {
      assert s == [s[0]] + s[1..];
    }
  }

  /** The pieces joined back together with single commas. */
  function Join(pieces: seq<string>): (line: string)
    requires |pieces| >= 1
  {
    if |pieces| == 1 then pieces[0] else pieces[0] + [','] + Join(pieces[1..])
  }

  /** `s` with every run of adjacent commas replaced by a single comma. */
  function Collapse(s: string): (r: string)
    ensures |r| <= |s|
    ensures forall i :: 0 <= i < |r| - 1 ==> !(r[i] == ',' && r[i + 1] == ',')
    ensures r != [] ==> r[0] == s[0]
  {
    if s == [] then []
    else if |s| >= 2 && s[0] == ',' && s[1] == ',' then Collapse(s[1..])
    else [s[0]] + Collapse(s[1..])
  }

  /** Joining the pieces of a split gives back the line with comma runs collapsed. */
  lemma {:induction false} JoinSplit(s: string)
    ensures Join(Split(s)) == Collapse(s)
    decreases |s|
  {
    if s == [] {
    } else if s[0] == ',' {
      JoinSplit(s[1..]);
      if !(|s| >= 2 && s[1] == ',') {
        JoinEmptyFirst(Split(s[1..]));
      }
    } else {
      JoinSplit(s[1..]);
      var rest := Split(s[1..]);
      JoinConsChar(s[0], rest[0], rest[1..]);
      assert [rest[0]] + rest[1..] == rest;
    }
  }

  /** An empty first piece contributes just its separator. */
  lemma JoinEmptyFirst(rest: seq<string>)
    requires |rest| >= 1
    ensures Join([[]] + rest) == [','] + Join(rest)
  {
    assert ([[]] + rest)[1..] == rest;
  }

  /** Prefixing the first piece with a character prefixes the joined string with it. */
  lemma JoinConsChar(c: char, first: string, rest: seq<string>)
    ensures Join([[c] + first] + rest) == [c] + Join([first] + rest)
  {
    if rest != [] {
      assert ([[c] + first] + rest)[1..] == rest;
      assert ([first] + rest)[1..] == rest;
    }
  }

  /** The names on one line: its comma-separated pieces, each trimmed. */
  function Tokens(line: string): (r: seq<string>)
    ensures |r| == |Split(line)|
  {
    TrimAll(Split(line))
  }

  /** Name k of a line is its k-th comma-separated piece, trimmed. */
  lemma TokenIsTrimmedPiece(line: string, k: nat)
    requires k < |Split(line)|
    ensures Tokens(line)[k] == Trim(Split(line)[k])
  {
  }

  function TrimAll(pieces: seq<string>): (r: seq<string>)
    ensures |r| == |pieces|
    ensures forall i {:trigger Trim(pieces[i])} :: 0 <= i < |r| ==> r[i] == Trim(pieces[i])
  {
    if pieces == [] then [] else TrimAll(pieces[..|pieces| - 1]) + [Trim(pieces[|pieces| - 1])]
  }

  /** Adjacent commas merge; a leading comma still yields an empty first piece. */
  lemma SplitExamples()
    ensures Split("a,,b") == ["a", "b"]
    ensures Split(",a") == ["", "a"]
    ensures Split("") == [""]
  {
    assert ",,b"[1..] == ",b" && ",b"[1..] == "b" && "a,,b"[1..] == ",,b" && "b"[1..] == "";
    assert ",a"[1..] == "a" && "a"[1..] == "";
    assert Split("") == [""] && "b"[0] == 'b' && ['b'] + "" == "b";
    assert Split("b") == ["b"];
    assert Split(",b") == ["", "b"];
    assert Split(",,b") == ["", "b"];
    assert "a,,b"[0] == 'a' && ['a'] + "" == "a";
    assert "a"[0] == 'a' && ['a'] + "" == "a";
    assert Split("a") == ["a"];
  }

  /** Surrounding blanks and tabs go; inner ones stay. */
  lemma TrimExample()
    ensures Trim(" a b\t") == "a b"
  {
    assert TrimStart(" a b\t") == "a b\t" by {
      assert " a b\t"[1..] == "a b\t";
      assert TrimStart("a b\t") == "a b\t";
    }
    assert TrimEnd("a b\t") == "a b" by {
      assert "a b\t"[..3] == "a b";
      assert TrimEnd("a b") == "a b";
    }
  }
}
