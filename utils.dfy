/** `splitString`: repeated `std::getline` on a string stream. */
module StringUtils {

  /** The position of the first `d` in `s`, or `|s|` when there is none. */
  function FirstIndex(s: string, d: char): (i: nat)
    ensures i <= |s|
    ensures forall k | 0 <= k < i :: s[k] != d
    ensures i < |s| ==> s[i] == d
  {
    if |s| == 0 then 0
    else if s[0] == d then 0
    else 1 + FirstIndex(s[1..], d)
  }

  /** The tokens `getline` extracts: each read takes the characters up to the
      next delimiter and consumes the delimiter; a read fails only when the
      stream is already exhausted, so a trailing delimiter yields no empty
      last token. */
  function Tokens(s: string, d: char): seq<string>
    decreases |s|
  {
    if |s| == 0 then []
    else
      var i := FirstIndex(s, d);
      if i == |s| then [s] else [s[..i]] + Tokens(s[i + 1..], d)
  }

  /** The tokens joined with the delimiter. */
  function Join(tokens: seq<string>, d: char): string {
    if |tokens| == 0 then []
    else if |tokens| == 1 then tokens[0]
    else tokens[0] + [d] + Join(tokens[1..], d)
  }

  /** The number of occurrences of `d` in `s`. */
  function Occurrences(s: string, d: char): nat {
    if |s| == 0 then 0 else (if s[0] == d then 1 else 0) + Occurrences(s[1..], d)
  }

  /** `s` without one trailing delimiter, if it has one. */
  function DropTrailing(s: string, d: char): string {
    if |s| > 0 && s[|s| - 1] == d then s[..|s| - 1] else s
  }

  /** The first index is the unique position before which no delimiter occurs
      and at which there is a delimiter or the end. */
  lemma {:induction false} FirstIndexUnique(s: string, d: char, i: nat)
    requires i <= |s| && (forall k | 0 <= k < i :: s[k] != d) && (i < |s| ==> s[i] == d)
    ensures FirstIndex(s, d) == i
  {
  }

  /** A non-empty input yields at least one token. */
  lemma NonEmptyHasTokens(s: string, d: char)
    requires |s| > 0
    ensures |Tokens(s, d)| > 0
  {
  }

  /** No token contains the delimiter. */
  lemma {:induction false} TokensHaveNoDelimiter(s: string, d: char)
    ensures forall t | t in Tokens(s, d) :: d !in t
    decreases |s|
  {
    if |s| > 0 {
      var i := FirstIndex(s, d);
      if i < |s| {
        TokensHaveNoDelimiter(s[i + 1..], d);
      }
    }
  }

  /** The tokens of an input whose first delimiter is at `i`: the prefix, then the tokens after it. */
  lemma TokensUnfold(s: string, d: char, i: nat)
    requires i < |s| && FirstIndex(s, d) == i
    ensures Tokens(s, d) == [s[..i]] + Tokens(s[i + 1..], d)
  {
  }

  /** Joining the tokens with the delimiter gives back the input, less one
      trailing delimiter when it ends with one. */
  lemma {:induction false} JoinTokens(s: string, d: char)
    ensures Join(Tokens(s, d), d) == DropTrailing(s, d)
    decreases |s|
  {
    if |s| > 0 {
      var i := FirstIndex(s, d);
      if i < |s| {
        JoinTokens(s[i + 1..], d);
        JoinStep(s, d, i);
      }
    }
  }

  /** The inductive step of `JoinTokens`, at the first delimiter `i`. */
  lemma JoinStep(s: string, d: char, i: nat)
    requires i < |s| && FirstIndex(s, d) == i
    requires Join(Tokens(s[i + 1..], d), d) == DropTrailing(s[i + 1..], d)
    ensures Join(Tokens(s, d), d) == DropTrailing(s, d)
  {
    var rest := s[i + 1..];
    var head := s[..i];
    TokensUnfold(s, d, i);
    DropTrailingSplit(s, d, i);
    if |rest| == 0 {
      assert Tokens(s, d) == [head];
    } else {
      NonEmptyHasTokens(rest, d);
      JoinCons(head, Tokens(rest, d), d);
    }
  }

  /** Dropping a trailing delimiter only touches the part after the first one. */
  lemma DropTrailingSplit(s: string, d: char, i: nat)
    requires i < |s| && s[i] == d
    ensures |s[i + 1..]| == 0 ==> DropTrailing(s, d) == s[..i]
    ensures |s[i + 1..]| > 0 ==> DropTrailing(s, d) == s[..i] + [d] + DropTrailing(s[i + 1..], d)
  {
    var rest := s[i + 1..];
    assert s == s[..i] + [d] + rest;
    if |rest| > 0 {
      assert s[|s| - 1] == rest[|rest| - 1];
      if rest[|rest| - 1] == d {
        assert s[..|s| - 1] == s[..i] + [d] + rest[..|rest| - 1];
      }
    }
  }

  lemma JoinCons(head: string, tail: seq<string>, d: char)
    requires |tail| > 0
    ensures Join([head] + tail, d) == head + [d] + Join(tail, d)
  {
    assert ([head] + tail)[1..] == tail;
  }

  lemma {:induction false} OccurrencesAppend(a: string, b: string, d: char)
    ensures Occurrences(a + b, d) == Occurrences(a, d) + Occurrences(b, d)
  {
    if |a| > 0 {
      assert (a + b)[1..] == a[1..] + b;
      OccurrencesAppend(a[1..], b, d);
    } else {
      assert a + b == b;
    }
  }

  lemma {:induction false} NoOccurrences(s: string, d: char)
    requires d !in s
    ensures Occurrences(s, d) == 0
  {
    if |s| > 0 {
      assert d !in s[1..];
      NoOccurrences(s[1..], d);
    }
  }

  /** One token per delimiter, plus one more when the input is non-empty and
      does not end with the delimiter. */
  lemma {:induction false} TokenCount(s: string, d: char)
    ensures |Tokens(s, d)| == if |s| > 0 && s[|s| - 1] != d then Occurrences(s, d) + 1 else Occurrences(s, d)
    decreases |s|
  {
    if |s| > 0 {
      var i := FirstIndex(s, d);
      if i == |s| {
        NoOccurrences(s, d);
      } else {
        var rest := s[i + 1..];
        TokenCount(rest, d);
        assert s == s[..i] + ([d] + rest);
        OccurrencesAppend(s[..i], [d] + rest, d);
        OccurrencesAppend([d], rest, d);
        NoOccurrences(s[..i], d);
        if |rest| == 0 {
          assert Occurrences([d], d) == 1 + Occurrences([], d);
        } else {
          assert s[|s| - 1] == rest[|rest| - 1];
          assert Occurrences([d], d) == 1 + Occurrences([], d);
        }
      }
    }
  }

  /** The empty input has no tokens; leading and adjacent delimiters produce empty tokens. */
  lemma SplitExamples()
    ensures Tokens("", ',') == []
    ensures Tokens(",a", ',') == ["", "a"]
    ensures Tokens("a,,b", ',') == ["a", "", "b"]
    ensures Tokens("a,", ',') == ["a"]
    ensures Tokens(",", ',') == [""]
  {
    FirstIndexUnique(",a", ',', 0);
    assert ",a"[1..] == "a";
    FirstIndexUnique("a", ',', 1);
    FirstIndexUnique("a,,b", ',', 1);
    assert "a,,b"[..1] == "a" && "a,,b"[2..] == ",b";
    FirstIndexUnique(",b", ',', 0);
    assert ",b"[1..] == "b";
    FirstIndexUnique("b", ',', 1);
    FirstIndexUnique("a,", ',', 1);
    assert "a,"[..1] == "a" && "a,"[2..] == "";
    FirstIndexUnique(",", ',', 0);
  }

  /** The tokens of `s[pos..]` when the next delimiter from `pos` is at `j` (or there is none and `j` is `|s|`). */
  lemma TokensFrom(s: string, d: char, pos: nat, j: nat)
    requires pos < |s| && pos <= j <= |s|
    requires forall k | pos <= k < j :: s[k] != d
    requires j < |s| ==> s[j] == d
    ensures Tokens(s[pos..], d) == [s[pos..j]] + (if j < |s| then Tokens(s[j + 1..], d) else [])
  {
    var rest := s[pos..];
    FirstIndexUnique(rest, d, j - pos);
    assert rest[..j - pos] == s[pos..j];
    if j < |s| {
      TokensUnfold(rest, d, j - pos);
      assert rest[j - pos + 1..] == s[j + 1..];
      assert Tokens(rest, d) == [s[pos..j]] + Tokens(s[j + 1..], d);
    } else {
      assert rest == s[pos..j];
    }
  }

  /** One successful read keeps the loop invariant: the tokens so far, then those of the unread rest, are all the tokens. */
  lemma SplitStep(s: string, d: char, pos: nat, j: nat, tokens: seq<string>)
    requires pos < |s| && pos <= j <= |s|
    requires forall k | pos <= k < j :: s[k] != d
    requires j < |s| ==> s[j] == d
    requires tokens + Tokens(s[pos..], d) == Tokens(s, d)
    ensures (tokens + [s[pos..j]]) + Tokens(s[if j < |s| then j + 1 else j..], d) == Tokens(s, d)
  {
    TokensFrom(s, d, pos, j);
    if j == |s| {
      assert s[j..] == [];
    }
  }

  /** `splitString`: while a read succeeds, extract the next token and append it. */
  method SplitString(s: string, d: char) returns (tokens: seq<string>)
    ensures tokens == Tokens(s, d)
  {
    tokens := [];
    var pos := 0;
    while pos < |s|
      invariant 0 <= pos <= |s|
      invariant tokens + Tokens(s[pos..], d) == Tokens(s, d)
      decreases |s| - pos
    {
      var token := "";
      var j := pos;
      while j < |s| && s[j] != d
        invariant pos <= j <= |s|
        invariant token == s[pos..j]
        invariant forall k | pos <= k < j :: s[k] != d
      {
        token := token + [s[j]];
        j := j + 1;
      }
      SplitStep(s, d, pos, j, tokens);
      pos := if j < |s| then j + 1 else j;
      tokens := tokens + [token];
    }
    assert s[|s|..] == [];
  }
}
