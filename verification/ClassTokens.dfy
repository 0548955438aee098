// The class-list helpers around the Tailwind merge (internal/dashboard/utils/shadcn-templ.go).
module ClassTokens {
  import opened Text

  // ----- Important markers ---------------------------------------------------------------------

  // Opening minus closing square brackets.
  function Depth(s: string): int {
    if s == "" then 0
    else Depth(s[..|s| - 1]) + if s[|s| - 1] == '[' then 1 else if s[|s| - 1] == ']' then -1 else 0
  }

  // The depth is the number of opening brackets less that of closing ones.
  lemma {:induction false} DepthCounts(s: string)
    ensures Depth(s) == multiset(s)['['] as int - multiset(s)[']'] as int
  {
    if s != "" {
      DepthCounts(s[..|s| - 1]);
      assert s == s[..|s| - 1] + [s[|s| - 1]];
    }
  }

  predicate TopLevelColon(s: string, i: int) {
    0 <= i < |s| && s[i] == ':' && Depth(s[..i]) == 0
  }

  // i is the last colon outside brackets, or -1.
  predicate IsLastTopLevelColon(s: string, i: int) {
    && (i == -1 || TopLevelColon(s, i))
    && forall k :: i < k < |s| ==> !TopLevelColon(s, k)
  }

  function LastTopLevelColon(s: string): (i: int)
    ensures -1 <= i < |s|
  {
    if s == "" then -1
    else if TopLevelColon(s, |s| - 1) then |s| - 1
    else LastTopLevelColon(s[..|s| - 1])
  }

  lemma {:induction false} LastColonIs(s: string)
    ensures IsLastTopLevelColon(s, LastTopLevelColon(s))
  {
    if s != "" {
      var t := s[..|s| - 1];
      LastColonIs(t);
      forall k | 0 <= k < |t|
        ensures TopLevelColon(s, k) <==> TopLevelColon(t, k)
      {
        assert s[..k] == t[..k];
      }
    }
  }

  lemma LastColonUnique(s: string, i: int, k: int)
    requires IsLastTopLevelColon(s, i) && IsLastTopLevelColon(s, k)
    ensures i == k
  {
  }

  method FindLastTopLevelColon(s: string) returns (last: int)
    ensures last == LastTopLevelColon(s)
    ensures IsLastTopLevelColon(s, last)
  {
    var depth := 0;
    last := -1;
    for i := 0 to |s|
      invariant depth == Depth(s[..i])
      invariant last == LastTopLevelColon(s[..i])
    {
      assert s[..i + 1][..i] == s[..i];
      match s[i] {
        case '[' => depth := depth + 1;
        case ']' => depth := depth - 1;
        case ':' =>
          if depth == 0 {
            last := i;
          }
        case _ =>
      }
    }
    assert s[..|s|] == s;
    LastColonIs(s);
  }

  predicate EndsImportant(token: string) {
    token != "" && token[|token| - 1] == '!'
  }

  // The v3 marker: right after the last variant separator.
  predicate StartsImportant(token: string) {
    var i := LastTopLevelColon(token);
    i + 1 < |token| && token[i + 1] == '!'
  }

  function ImportantToV3(token: string): string {
    if !EndsImportant(token) then token
    else
      var base := token[..|token| - 1];
      var i := LastTopLevelColon(base);
      base[..i + 1] + "!" + base[i + 1..]
  }

  function ImportantToV4(token: string): string {
    if !StartsImportant(token) then token
    else
      var i := LastTopLevelColon(token);
      token[..i + 1] + token[i + 2..] + "!"
  }

  lemma {:induction false} DepthWithout(a: string, b: string)
    ensures Depth(a + "!" + b) == Depth(a + b)
    decreases |b|
  {
    if b == "" {
      assert (a + "!" + b)[..|a|] == a == a + b;
    } else {
      var b' := b[..|b| - 1];
      DepthWithout(a, b');
      assert (a + "!" + b)[..|a + "!" + b| - 1] == a + "!" + b';
      assert (a + b)[..|a + b| - 1] == a + b';
    }
  }

  lemma ColonShifts(a: string, b: string, k: nat)
    requires |a| <= k < |a + b|
    ensures TopLevelColon(a + "!" + b, k + 1) <==> TopLevelColon(a + b, k)
  {
    var between := b[..k - |a|];
    assert (a + "!" + b)[..k + 1] == a + "!" + between;
    assert (a + b)[..k] == a + between;
    DepthWithout(a, between);
  }

  // Putting the marker right after the last separator, or taking it away, does not move the
  // separator, whatever the brackets around it look like.
  lemma MarkerKeepsColon(a: string, b: string)
    ensures IsLastTopLevelColon(a + "!" + b, |a| - 1) <==> IsLastTopLevelColon(a + b, |a| - 1)
  {
    forall k | |a| <= k < |a + b|
      ensures TopLevelColon(a + "!" + b, k + 1) <==> TopLevelColon(a + b, k)
    {
      ColonShifts(a, b, k);
    }
    forall k | |a| < k < |a + "!" + b|
      ensures TopLevelColon(a + "!" + b, k) <==> TopLevelColon(a + b, k - 1)
    {
      assert TopLevelColon(a + "!" + b, k - 1 + 1) <==> TopLevelColon(a + b, k - 1);
    }
    if a != "" {
      assert (a + "!" + b)[..|a| - 1] == (a + b)[..|a| - 1];
    }
  }

  // a ends with the last separator of a + b.
  lemma ToV3Of(a: string, b: string)
    requires IsLastTopLevelColon(a + b, |a| - 1)
    ensures ImportantToV3(a + b + "!") == a + "!" + b
  {
    assert (a + b + "!")[..|a + b|] == a + b;
    LastColonIs(a + b);
    LastColonUnique(a + b, |a| - 1, LastTopLevelColon(a + b));
    assert (a + b)[..|a|] == a && (a + b)[|a|..] == b;
  }

  lemma ToV4Of(a: string, b: string)
    requires IsLastTopLevelColon(a + b, |a| - 1)
    ensures StartsImportant(a + "!" + b) && ImportantToV4(a + "!" + b) == a + b + "!"
  {
    var marked := a + "!" + b;
    MarkerKeepsColon(a, b);
    LastColonIs(marked);
    LastColonUnique(marked, |a| - 1, LastTopLevelColon(marked));
    assert marked[..|a|] == a && marked[|a| + 1..] == b && marked[|a|] == '!';
  }

  // The shim gives a token back exactly when it ends in the v4 marker or carries no v3 one.
  lemma ThereAndBackExactly(token: string)
    ensures ImportantToV4(ImportantToV3(token)) == token <==> EndsImportant(token) || !StartsImportant(token)
  {
    if EndsImportant(token) {
      var base := token[..|token| - 1];
      var i := LastTopLevelColon(base);
      LastColonIs(base);
      var a, b := base[..i + 1], base[i + 1..];
      assert a + b == base && token == a + b + "!";
      ToV3Of(a, b);
      ToV4Of(a, b);
    } else if StartsImportant(token) {
      var back := ImportantToV4(token);
      assert EndsImportant(back);
    }
  }

  // And the other way round, for every token with a v3 marker.
  lemma BackAndThere(token: string)
    requires StartsImportant(token)
    ensures EndsImportant(ImportantToV4(token)) && ImportantToV3(ImportantToV4(token)) == token
  {
    var i := LastTopLevelColon(token);
    var a, b := token[..i + 1], token[i + 2..];
    assert token == a + "!" + b;
    LastColonIs(token);
    MarkerKeepsColon(a, b);
    ToV3Of(a, b);
    ToV4Of(a, b);
  }

  // ----- Order of the survivors -----------------------------------------------------------------

  // Of each class, the last as many occurrences as survive, in order.
  function Rightmost(tokens: seq<string>, survive: multiset<string>): seq<string> {
    if tokens == [] then []
    else
      (if multiset(tokens[1..])[tokens[0]] < survive[tokens[0]] then [tokens[0]] else [])
      + Rightmost(tokens[1..], survive)
  }

  function Select(tokens: seq<string>, kept: seq<bool>): seq<string>
    requires |tokens| == |kept|
  {
    if tokens == [] then []
    else (if kept[0] then [tokens[0]] else []) + Select(tokens[1..], kept[1..])
  }

  lemma {:induction false} RightmostCounts(tokens: seq<string>, survive: multiset<string>)
    ensures multiset(Rightmost(tokens, survive)) == multiset(tokens) * survive
  {
    if tokens != [] {
      RightmostCounts(tokens[1..], survive);
      assert tokens == [tokens[0]] + tokens[1..];
    }
  }

  // A choice of positions that gives Rightmost, so this is a subsequence of the input; and in
  // every tail of the input the choice gives what Rightmost takes of that tail.
  lemma {:induction false} RightmostIsSelection(tokens: seq<string>, survive: multiset<string>)
    returns (kept: seq<bool>)
    ensures |kept| == |tokens| && Select(tokens, kept) == Rightmost(tokens, survive)
    ensures forall p :: 0 <= p <= |tokens| ==> Select(tokens[p..], kept[p..]) == Rightmost(tokens[p..], survive)
  {
    if tokens == [] {
      kept := [];
    } else {
      var rest := RightmostIsSelection(tokens[1..], survive);
      kept := [multiset(tokens[1..])[tokens[0]] < survive[tokens[0]]] + rest;
      forall p | 0 <= p <= |tokens|
        ensures Select(tokens[p..], kept[p..]) == Rightmost(tokens[p..], survive)
      {
        if p == 0 {
          assert tokens[0..] == tokens && kept[0..] == kept && kept[1..] == rest;
        } else {
          assert tokens[p..] == tokens[1..][p - 1..] && kept[p..] == rest[p - 1..];
        }
      }
    }
  }

  lemma {:induction false} SelectionCounts(tokens: seq<string>, kept: seq<bool>)
    requires |tokens| == |kept|
    ensures multiset(Select(tokens, kept)) <= multiset(tokens)
  {
    if tokens != [] {
      SelectionCounts(tokens[1..], kept[1..]);
      assert tokens == [tokens[0]] + tokens[1..];
    }
  }

  lemma {:induction false} SelectionTail(tokens: seq<string>, kept: seq<bool>, p: nat)
    requires |tokens| == |kept| && p <= |tokens|
    ensures multiset(Select(tokens[p..], kept[p..])) <= multiset(Select(tokens, kept))
  {
    if p > 0 {
      SelectionTail(tokens[1..], kept[1..], p - 1);
      assert tokens[1..][p - 1..] == tokens[p..] && kept[1..][p - 1..] == kept[p..];
    } else {
      assert tokens[p..] == tokens && kept[p..] == kept;
    }
  }

  // In every tail of the input, any choice of the same tokens has at most as many of each class:
  // the chosen occurrences are as far to the right as they can be.
  lemma RightmostIsBest(tokens: seq<string>, survive: multiset<string>, kept: seq<bool>, p: nat)
    requires |tokens| == |kept| && p <= |tokens|
    requires multiset(Select(tokens, kept)) == survive
    ensures multiset(Select(tokens[p..], kept[p..])) <= multiset(Rightmost(tokens[p..], survive))
  {
    SelectionCounts(tokens[p..], kept[p..]);
    SelectionTail(tokens, kept, p);
    RightmostCounts(tokens[p..], survive);
  }

  lemma SizeOfPart(a: multiset<string>, b: multiset<string>)
    requires a <= b
    ensures |a| <= |b| && (|a| == |b| ==> a == b)
  {
    assert b == a + (b - a);
    if |a| == |b| {
      assert |b - a| == 0;
    }
  }

  function Reversed(s: seq<string>): seq<string> {
    if s == [] then [] else Reversed(s[1..]) + [s[0]]
  }

  lemma {:induction false} ReversedAppend(s: seq<string>, x: string)
    ensures Reversed(s + [x]) == [x] + Reversed(s)
  {
    if s != [] {
      assert (s + [x])[1..] == s[1..] + [x];
      ReversedAppend(s[1..], x);
    }
  }

  // One step of the walk from the right: what is left to place tells whether the token is kept.
  lemma TailStep(tokens: seq<string>, survive: multiset<string>, i: nat)
    requires i < |tokens|
    ensures var t, rest := tokens[i], survive - multiset(tokens[i + 1..]);
            && survive - multiset(tokens[i..]) == (if rest[t] != 0 then rest[t := rest[t] - 1] else rest)
            && Rightmost(tokens[i..], survive)
               == (if rest[t] != 0 then [t] else []) + Rightmost(tokens[i + 1..], survive)
  {
    assert tokens[i..] == [tokens[i]] + tokens[i + 1..];
  }

  // The walk from the right.
  method KeepFromRight(tokens: seq<string>, survivors: seq<string>) returns (ordered: seq<string>)
    ensures Reversed(ordered) == Rightmost(tokens, multiset(survivors))
    ensures |ordered| == |Rightmost(tokens, multiset(survivors))|
  {
    ghost var survive := multiset(survivors);
    var remaining := multiset(survivors);
    ordered := [];
    var i := |tokens|;
    while i > 0
      invariant 0 <= i <= |tokens|
      invariant remaining == survive - multiset(tokens[i..])
      invariant Reversed(ordered) == Rightmost(tokens[i..], survive)
      invariant |ordered| == |Rightmost(tokens[i..], survive)|
    {
      i := i - 1;
      TailStep(tokens, survive, i);
      if remaining[tokens[i]] != 0 {
        remaining := remaining[tokens[i] := remaining[tokens[i]] - 1];
        ReversedAppend(ordered, tokens[i]);
        ordered := ordered + [tokens[i]];
      }
    }
    assert tokens[0..] == tokens;
  }

  method Reorder(input: string, merged: string) returns (out: string)
    ensures var survivors, tokens := Fields(merged), Fields(input);
            out == if |survivors| >= 2 && multiset(survivors) <= multiset(tokens)
                   then Join(Rightmost(tokens, multiset(survivors))) else merged
  {
    var survivors := Fields(merged);
    if |survivors| < 2 {
      return merged;
    }
    var tokens := Fields(input);
    var ordered := KeepFromRight(tokens, survivors);
    AllSurvive(tokens, survivors);
    if |ordered| != |survivors| {
      return merged;
    }
    out := Join(Reversed(ordered));
  }

  // The length check of the code finds out whether every survivor is one of the tokens.
  lemma AllSurvive(tokens: seq<string>, survivors: seq<string>)
    ensures |Rightmost(tokens, multiset(survivors))| == |survivors| <==> multiset(survivors) <= multiset(tokens)
  {
    var s, t := multiset(survivors), multiset(tokens);
    RightmostCounts(tokens, s);
    assert |multiset(Rightmost(tokens, s))| == |Rightmost(tokens, s)| && |s| == |survivors|;
    SizeOfPart(t * s, s);
    if s <= t {
      assert t * s == s;
    }
  }

  // What the reordered class list says: the survivors, each as often as it survived.
  lemma ReorderedList(input: string, merged: string)
    requires multiset(Fields(merged)) <= multiset(Fields(input))
    ensures var out := Join(Rightmost(Fields(input), multiset(Fields(merged))));
            && Fields(out) == Rightmost(Fields(input), multiset(Fields(merged)))
            && multiset(Fields(out)) == multiset(Fields(merged))
  {
    var tokens, s := Fields(input), multiset(Fields(merged));
    FieldsAreWords(input);
    RightmostCounts(tokens, s);
    assert multiset(tokens) * s == s;
    var r := Rightmost(tokens, s);
    forall i | 0 <= i < |r|
      ensures IsWord(r[i])
    {
      assert r[i] in multiset(r);
      assert r[i] in tokens;
    }
    FieldsOfJoin(r);
  }
}
