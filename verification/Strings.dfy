/**
 Cutting a string at a delimiter (ExecuteCmd) and replacing a substring (WebSocketProto): two
 separately written loops over the same leftmost, non-overlapping occurrences.
 */
module Strings {
  import opened Bytes

  predicate OccursAt(s: string, d: string, i: nat) {
    i + |d| <= |s| && s[i..i + |d|] == d
  }

  // std::string::find
  function Find(s: string, d: string, from: nat): (at: Option<nat>)
    ensures at.Some? ==> from <= at.value && at.value + |d| <= |s| && OccursAt(s, d, at.value)
    ensures forall i :: from <= i < (if at.Some? then at.value else |s| + 1) ==> !OccursAt(s, d, i)
    decreases |s| + 1 - from
  {
    if from + |d| > |s| then None
    else if OccursAt(s, d, from) then Some(from)
    else Find(s, d, from + 1)
  }

  // The search finds an occurrence if there is one, and none later than the first.
  lemma FindFirst(s: string, d: string, from: nat, i: nat)
    requires from <= i && i + |d| <= |s| && s[i..i + |d|] == d
    ensures var at := Find(s, d, from);
            && at.Some? && from <= at.value <= i && at.value + |d| <= |s|
            && s[at.value..at.value + |d|] == d
  {
    assert OccursAt(s, d, i);
  }

  // The parts between the occurrences.
  function Tokens(s: string, d: string): (tokens: seq<string>)
    requires d != ""
    ensures tokens != []
    decreases |s|
  {
    match Find(s, d, 0)
    case None => [s]
    case Some(i) => [s[..i]] + Tokens(s[i + |d|..], d)
  }

  function Join(tokens: seq<string>, separator: string): string
    requires tokens != []
  {
    if |tokens| == 1 then tokens[0] else tokens[0] + separator + Join(tokens[1..], separator)
  }

  // Joining the tokens with the delimiter gives the string back.
  lemma {:induction false} JoinTokens(s: string, d: string)
    requires d != ""
    ensures Join(Tokens(s, d), d) == s
    decreases |s|
  {
    match Find(s, d, 0)
    case None =>
    case Some(i) =>
      JoinTokens(s[i + |d|..], d);
      assert Tokens(s, d)[1..] == Tokens(s[i + |d|..], d);
      assert s == s[..i] + d + s[i + |d|..];
  }

  // No token contains the delimiter.
  lemma {:induction false} TokensWithout(s: string, d: string)
    requires d != ""
    ensures forall t, i: nat :: t in Tokens(s, d) ==> !OccursAt(t, d, i)
    decreases |s|
  {
    match Find(s, d, 0)
    case None =>
    case Some(at) =>
      TokensWithout(s[at + |d|..], d);
      forall i: nat ensures !OccursAt(s[..at], d, i) {
        if i + |d| <= at {
          assert !OccursAt(s, d, i);
          assert s[..at][i..i + |d|] == s[i..i + |d|];
        }
      }
  }

  lemma OccursRest(s: string, rest: string, d: string, from: nat, i: nat)
    requires from <= |s| && rest == s[from..]
    ensures OccursAt(rest, d, i) <==> OccursAt(s, d, from + i)
  {
    if i + |d| <= |rest| {
      assert rest[i..i + |d|] == s[from + i..from + i + |d|];
    }
  }

  function Shift(at: Option<nat>, distance: nat): Option<nat> {
    if at.None? then None else Some(at.value + distance)
  }

  // Searching from a position is searching the rest.
  lemma {:induction false} FindRest(s: string, rest: string, d: string, from: nat, i: nat)
    requires from <= |s| && rest == s[from..]
    ensures Find(s, d, from + i) == Shift(Find(rest, d, i), from)
    decreases |s| + 1 - i
  {
    if i <= |rest| {
      OccursRest(s, rest, d, from, i);
      FindRest(s, rest, d, from, i + 1);
    }
  }

  // Strings::Split
  method Split(stringToSplit: string, delimiter: string) returns (results: seq<string>)
    requires delimiter != ""
    ensures results == Tokens(stringToSplit, delimiter)
  {
    if Find(stringToSplit, delimiter, 0) == None {
      return [stringToSplit];
    }
    results := [];
    var intermediate := stringToSplit;
    var position := Find(intermediate, delimiter, 0);
    while position.Some?
      invariant position == Find(intermediate, delimiter, 0)
      invariant Tokens(stringToSplit, delimiter)
                == if position.Some? then results + Tokens(intermediate, delimiter) else results
      decreases |intermediate|
    {
      var token := intermediate[..position.value];
      ghost var before, rest := results, Tokens(intermediate[position.value + |delimiter|..], delimiter);
      assert before + ([token] + rest) == before + [token] + rest;
      results := results + [token];
      intermediate := intermediate[position.value + |delimiter|..];
      position := Find(intermediate, delimiter, 0);
      if position == None {
        results := results + [intermediate];
      }
    }
  }

  // WinHttp::Replace
  method Replace(source: string, from: string, to: string) returns (newString: string)
    requires from != ""
    ensures newString == Join(Tokens(source, from), to)
  {
    hide Tokens, Join, OccursAt;
    newString := "";
    var lastPos := 0;
    assert source[0..] == source;
    var findPos := Find(source, from, lastPos);
    while findPos.Some?
      invariant lastPos <= |source| && findPos == Find(source, from, lastPos)
      invariant Join(Tokens(source, from), to) == newString + Join(Tokens(source[lastPos..], from), to)
      decreases |source| - lastPos
    {
      var next := findPos.value + |from|;
      var first := source[lastPos..findPos.value];
      ghost var last := source[next..];
      SliceTwice(source, lastPos, findPos.value, |from|);
      TokensRest(source, source[lastPos..], from, lastPos, findPos.value, first, last);
      JoinCons(newString, first, Tokens(last, from), to);
      newString := newString + first;
      newString := newString + to;
      lastPos := next;
      findPos := Find(source, from, lastPos);
    }
    TokensLast(source, from, lastPos);
    JoinOne(source[lastPos..], to);
    newString := newString + source[lastPos..];
  }

  // The tokens of the rest of a string, from a search in the whole string.
  lemma TokensRest(s: string, rest: string, d: string, from: nat, at: nat, first: string, last: string)
    requires d != "" && from <= |s| && rest == s[from..] && Find(s, d, from) == Some(at)
    requires rest[..at - from] == first && rest[at - from + |d|..] == last
    ensures Tokens(rest, d) == [first] + Tokens(last, d)
  {
    FindRest(s, rest, d, from, 0);
    TokensCut(rest, d, at - from, first, last);
  }

  lemma SliceTwice(s: string, from: nat, at: nat, n: nat)
    requires from <= at && at + n <= |s|
    ensures s[from..][..at - from] == s[from..at] && s[from..][at - from + n..] == s[at + n..]
  {
  }

  lemma TokensCut(s: string, d: string, at: nat, first: string, last: string)
    requires d != "" && at + |d| <= |s| && Find(s, d, 0) == Some(at)
    requires s[..at] == first && s[at + |d|..] == last
    ensures Tokens(s, d) == [first] + Tokens(last, d)
  {
  }

  lemma TokensLast(s: string, d: string, from: nat)
    requires d != "" && from <= |s| && Find(s, d, from) == None
    ensures Tokens(s[from..], d) == [s[from..]]
  {
    FindRest(s, s[from..], d, from, 0);
  }

  lemma JoinOne(token: string, separator: string)
    ensures Join([token], separator) == token
  {
  }

  lemma JoinCons(before: string, first: string, rest: seq<string>, separator: string)
    requires rest != []
    ensures before + Join([first] + rest, separator) == (before + first + separator) + Join(rest, separator)
  {
    assert ([first] + rest)[1..] == rest;
  }
}
