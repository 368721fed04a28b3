/**
 The temporary password: one letter, one digit and ten alphanumeric characters,
 shuffled in place. The random indices are inputs.
 */
module Shuffling {

  // -------------------------------------------------------------- the shuffle

  /** A choice of index for every position: choices[i] is drawn from 0..i. */
  predicate Choices(choices: seq<nat>) {
    forall i | 0 <= i < |choices| :: choices[i] <= i
  }

  function Swap<T>(s: seq<T>, i: nat, j: nat): (r: seq<T>)
    requires i < |s| && j < |s|
    ensures |r| == |s|
  {
    s[i := s[j]][j := s[i]]
  }

  /** The countdown loop from position i: swap with the chosen index, go on below. */
  function ShuffledFrom<T>(s: seq<T>, choices: seq<nat>, i: nat): (r: seq<T>)
    requires |choices| == |s| && Choices(choices) && (i < |s| || i == 0)
    ensures |r| == |s|
    decreases i
  {
    if i == 0 then s else ShuffledFrom(Swap(s, i, choices[i]), choices, i - 1)
  }

  function Shuffled<T>(s: seq<T>, choices: seq<nat>): (r: seq<T>)
    requires |choices| == |s| && Choices(choices)
    ensures |r| == |s|
  {
    ShuffledFrom(s, choices, if |s| == 0 then 0 else |s| - 1)
  }

  method Shuffle<T>(a: array<T>, choices: seq<nat>)
    requires |choices| == a.Length && Choices(choices)
    modifies a
    ensures a[..] == Shuffled(old(a[..]), choices)
  {
    var i := a.Length - 1;
    while i > 0
      invariant -1 <= i < a.Length
      invariant i >= 0 ==> ShuffledFrom(a[..], choices, i) == Shuffled(old(a[..]), choices)
      invariant i < 0 ==> a.Length == 0
    {
      var j := choices[i];
      ghost var before := a[..];
      a[i], a[j] := a[j], a[i];
      assert a[..] == Swap(before, i, j);
      i := i - 1;
    }
  }

  lemma SwapPermutes<T>(s: seq<T>, i: nat, j: nat)
    requires i < |s| && j < |s|
    ensures multiset(Swap(s, i, j)) == multiset(s)
  {
  }

  lemma {:induction false} ShuffledFromPermutes<T>(s: seq<T>, choices: seq<nat>, i: nat)
    requires |choices| == |s| && Choices(choices) && (i < |s| || i == 0)
    ensures multiset(ShuffledFrom(s, choices, i)) == multiset(s)
    decreases i
  {
    if i > 0 {
      SwapPermutes(s, i, choices[i]);
      ShuffledFromPermutes(Swap(s, i, choices[i]), choices, i - 1);
    }
  }

  /** Positions above i are final. */
  lemma {:induction false} ShuffledFromKeepsAbove<T>(s: seq<T>, choices: seq<nat>, i: nat)
    requires |choices| == |s| && Choices(choices) && (i < |s| || i == 0)
    ensures forall k | i < k < |s| :: ShuffledFrom(s, choices, i)[k] == s[k]
    decreases i
  {
    if i > 0 {
      ShuffledFromKeepsAbove(Swap(s, i, choices[i]), choices, i - 1);
    }
  }

  ghost predicate DistinctItems<T>(s: seq<T>) {
    forall i, j | 0 <= i < j < |s| :: s[i] != s[j]
  }

  /** Different choices give different results, on items that are all different. */
  lemma {:induction false} ShuffledFromInjective<T>(s: seq<T>, c: seq<nat>, d: seq<nat>, i: nat)
    requires |c| == |s| == |d| && Choices(c) && Choices(d) && (i < |s| || i == 0) && DistinctItems(s)
    requires ShuffledFrom(s, c, i) == ShuffledFrom(s, d, i)
    ensures forall k | 0 < k <= i :: c[k] == d[k]
    decreases i
  {
    if i > 0 {
      var sc, sd := Swap(s, i, c[i]), Swap(s, i, d[i]);
      ShuffledFromKeepsAbove(sc, c, i - 1);
      ShuffledFromKeepsAbove(sd, d, i - 1);
      assert s[c[i]] == sc[i] == sd[i] == s[d[i]];
      assert c[i] == d[i];
      ShuffledFromInjective(sc, c, d, i - 1);
    }
  }

  ghost predicate SamePrefix<T>(s: seq<T>, p: seq<T>, i: nat) {
    i < |s| && |s| == |p| && multiset(s[..i + 1]) == multiset(p[..i + 1])
  }

  /** A position of s, at most i, that holds what p wants at i. */
  ghost function Find<T>(s: seq<T>, p: seq<T>, i: nat): (j: nat)
    requires SamePrefix(s, p, i)
    ensures j <= i && s[j] == p[i]
  {
    FoundInPrefix(s, p, i);
    var j: nat :| j <= i && s[j] == p[i];
    j
  }

  /** The choices that lead from s to the arrangement p, read off from the top. */
  ghost function ChoicesFor<T>(s: seq<T>, p: seq<T>, i: nat): (c: seq<nat>)
    requires SamePrefix(s, p, i)
    ensures |c| == i + 1 && Choices(c)
    decreases i
  {
    if i == 0 then [0]
    else
      PrefixAfterSwap(s, p, i, Find(s, p, i));
      ChoicesFor(Swap(s, i, Find(s, p, i)), p, i - 1) + [Find(s, p, i)]
  }

  lemma FoundInPrefix<T>(s: seq<T>, p: seq<T>, i: nat)
    requires SamePrefix(s, p, i)
    ensures exists j: nat :: j <= i && s[j] == p[i]
  {
    assert p[..i + 1][i] in multiset(p[..i + 1]);
    assert p[i] in s[..i + 1];
    var j :| 0 <= j < i + 1 && s[..i + 1][j] == p[i];
  }

  lemma PrefixAfterSwap<T>(s: seq<T>, p: seq<T>, i: nat, j: nat)
    requires 0 < i && SamePrefix(s, p, i) && j <= i && s[j] == p[i]
    ensures SamePrefix(Swap(s, i, j), p, i - 1)
  {
    var t := Swap(s, i, j);
    SwapInPrefix(s, i, j);
    SwapPermutes(s[..i + 1], i, j);
    DropLastItem(t, i);
    DropLastItem(p, i);
  }

  lemma SwapInPrefix<T>(s: seq<T>, i: nat, j: nat)
    requires j <= i < |s|
    ensures Swap(s, i, j)[..i + 1] == Swap(s[..i + 1], i, j)
  {
  }

  lemma DropLastItem<T>(s: seq<T>, i: nat)
    requires i < |s|
    ensures multiset(s[..i]) == multiset(s[..i + 1]) - multiset{s[i]}
  {
    assert s[..i + 1] == s[..i] + [s[i]];
  }

  lemma {:induction false} ChoicesForWork<T>(s: seq<T>, p: seq<T>, i: nat, rest: seq<nat>)
    requires SamePrefix(s, p, i)
    requires forall k | i < k < |s| :: s[k] == p[k]
    requires |rest| == |s| && Choices(rest) && rest[..i + 1] == ChoicesFor(s, p, i)
    ensures ShuffledFrom(s, rest, i) == p
    decreases i
  {
    if i == 0 {
      assert s[..1] == [s[0]] && p[..1] == [p[0]];
      assert p[0] in multiset(p[..1]);
      assert s == p;
    } else {
      var j := Find(s, p, i);
      assert rest[i] == rest[..i + 1][i] == j;
      PrefixAfterSwap(s, p, i, j);
      assert rest[..i] == rest[..i + 1][..i];
      ChoicesForWork(Swap(s, i, j), p, i - 1, rest);
    }
  }

  ghost predicate Rearranges<T>(p: seq<T>, s: seq<T>) {
    multiset(p) == multiset(s)
  }

  /**
   For every n: choice sequences map one-to-one onto all arrangements. Every
   result is a permutation of the input; every permutation is reached; and on
   items that are all different two choice sequences with the same result agree
   (index 0 is never drawn).
   */
  lemma ShuffleIsBijective<T>(s: seq<T>)
    ensures forall c: seq<nat> | |c| == |s| && Choices(c) :: multiset(Shuffled(s, c)) == multiset(s)
    ensures forall p: seq<T> | Rearranges(p, s) :: exists c: seq<nat> :: |c| == |s| && Choices(c) && Shuffled(s, c) == p
    ensures forall c: seq<nat>, d: seq<nat> | |c| == |s| == |d| && Choices(c) && Choices(d) && DistinctItems(s)
                                              && Shuffled(s, c) == Shuffled(s, d) ::
              forall k | 0 < k < |s| :: c[k] == d[k]
  {
    forall c: seq<nat> | |c| == |s| && Choices(c) ensures multiset(Shuffled(s, c)) == multiset(s) {
      ShuffledFromPermutes(s, c, if |s| == 0 then 0 else |s| - 1);
    }
    forall p: seq<T> | Rearranges(p, s)
      ensures exists c: seq<nat> :: |c| == |s| && Choices(c) && Shuffled(s, c) == p
    {
      ShuffleReaches(s, p);
    }
    forall c: seq<nat>, d: seq<nat> | |c| == |s| == |d| && Choices(c) && Choices(d) && DistinctItems(s)
                                      && Shuffled(s, c) == Shuffled(s, d)
      ensures forall k | 0 < k < |s| :: c[k] == d[k]
    {
      ShuffledFromInjective(s, c, d, if |s| == 0 then 0 else |s| - 1);
    }
  }

  lemma ShuffleReaches<T>(s: seq<T>, p: seq<T>)
    requires Rearranges(p, s)
    ensures exists c: seq<nat> :: |c| == |s| && Choices(c) && Shuffled(s, c) == p
  {
    assert |s| == |multiset(s)| == |multiset(p)| == |p|;
    if s == [] {
      var none: seq<nat> := [];
      assert |none| == |s| && Choices(none) && Shuffled(s, none) == p;
    } else {
      var i := |s| - 1;
      assert s[..i + 1] == s && p[..i + 1] == p;
      var c := ChoicesFor(s, p, i);
      assert c[..i + 1] == c;
      ChoicesForWork(s, p, i, c);
    }
  }

  // ------------------------------------------------------------ the password

  const CAPITALS := "ABCDEFGHJKLMNPQRSTUVWXYZ"
  const SMALLS := "abcdefghijkmnpqrstuvwxyz"
  const LETTERS := CAPITALS + SMALLS
  const DIGITS := "23456789"
  const ALPHANUMERIC := LETTERS + DIGITS

  predicate IsLetter(c: char) { 'A' <= c <= 'Z' || 'a' <= c <= 'z' }
  predicate IsDigit(c: char) { '0' <= c <= '9' }

  /** The letters and digits a password is made of: all but the six that are easily confused. */
  predicate Clear(c: char) {
    (IsLetter(c) || IsDigit(c)) && c != 'I' && c != 'O' && c != 'l' && c != 'o' && c != '0' && c != '1'
  }

  /** A to Z in order, but for two of them. */
  lemma CapitalAt(i: nat)
    requires i < |CAPITALS|
    ensures |CAPITALS| == 24 && CAPITALS[i] as int == 65 + i + if i < 8 then 0 else if i < 13 then 1 else 2
  {
  }

  /** a to z in order, but for two of them. */
  lemma SmallAt(i: nat)
    requires i < |SMALLS|
    ensures |SMALLS| == 24 && SMALLS[i] as int == 97 + i + if i < 11 then 0 else if i < 13 then 1 else 2
  {
  }

  lemma CapitalsExactly(c: char)
    ensures c in CAPITALS <==> 'A' <= c <= 'Z' && Clear(c)
  {
    if c in CAPITALS {
      var i :| 0 <= i < |CAPITALS| && CAPITALS[i] == c;
      CapitalAt(i);
    } else if 'A' <= c <= 'Z' && Clear(c) {
      CapitalAt(c as int - 65 - if c > 'O' then 2 else if c > 'I' then 1 else 0);
    }
  }

  lemma SmallsExactly(c: char)
    ensures c in SMALLS <==> 'a' <= c <= 'z' && Clear(c)
  {
    if c in SMALLS {
      var i :| 0 <= i < |SMALLS| && SMALLS[i] == c;
      SmallAt(i);
    } else if 'a' <= c <= 'z' && Clear(c) {
      SmallAt(c as int - 97 - if c > 'o' then 2 else if c > 'l' then 1 else 0);
    }
  }

  lemma DigitsExactly(c: char)
    ensures c in DIGITS <==> IsDigit(c) && Clear(c)
  {
    if IsDigit(c) && Clear(c) {
      assert DIGITS[c as int - 50] == c;
    }
  }

  lemma CharsetsExactly(c: char)
    ensures c in LETTERS <==> IsLetter(c) && Clear(c)
    ensures c in DIGITS <==> IsDigit(c) && Clear(c)
    ensures c in ALPHANUMERIC <==> Clear(c)
  {
    CapitalsExactly(c);
    SmallsExactly(c);
    DigitsExactly(c);
    assert c in LETTERS <==> c in CAPITALS || c in SMALLS;
    assert c in ALPHANUMERIC <==> c in LETTERS || c in DIGITS;
  }

  /** The password always meets the schema: 12 characters, a letter, a digit, nothing else. */
  method GenerateTemporaryPassword(letter: nat, digit: nat, picks: seq<nat>, choices: seq<nat>)
    returns (password: string)
    requires letter < |LETTERS| && digit < |DIGITS|
    requires |picks| == 10 && forall i | 0 <= i < 10 :: picks[i] < |ALPHANUMERIC|
    requires |choices| == 12 && Choices(choices)
    ensures |password| == 12
    ensures exists i :: 0 <= i < 12 && IsLetter(password[i])
    ensures exists i :: 0 <= i < 12 && IsDigit(password[i])
    ensures forall i | 0 <= i < 12 :: Clear(password[i])
    ensures multiset(password) ==
              multiset([LETTERS[letter], DIGITS[digit]] + seq(10, i requires 0 <= i < 10 => ALPHANUMERIC[picks[i]]))
    ensures password == Shuffled([LETTERS[letter], DIGITS[digit]]
                                 + seq(10, i requires 0 <= i < 10 => ALPHANUMERIC[picks[i]]), choices)
  {
    var chars := new char[12](i requires 0 <= i < 12 =>
      if i == 0 then LETTERS[letter] else if i == 1 then DIGITS[digit] else ALPHANUMERIC[picks[i - 2]]);
    ghost var start := chars[..];
    assert start == [LETTERS[letter], DIGITS[digit]] + seq(10, i requires 0 <= i < 10 => ALPHANUMERIC[picks[i]]);
    assert start[0] in LETTERS && start[1] in DIGITS;
    assert forall i | 0 <= i < 12 :: start[i] in ALPHANUMERIC;
    Shuffle(chars, choices);
    password := chars[..];
    ShuffledKeepsSchema(start, choices);
    ShuffledFromPermutes(start, choices, 11);
  }

  lemma ShuffledKeepsSchema(start: string, choices: seq<nat>)
    requires |start| == |choices| == 12 && Choices(choices)
    requires start[0] in LETTERS && start[1] in DIGITS && forall i | 0 <= i < 12 :: start[i] in ALPHANUMERIC
    ensures var password := Shuffled(start, choices);
            && (exists i :: 0 <= i < 12 && IsLetter(password[i]))
            && (exists i :: 0 <= i < 12 && IsDigit(password[i]))
            && forall i | 0 <= i < 12 :: Clear(password[i])
  {
    ShuffledFromPermutes(start, choices, 11);
    var password := Shuffled(start, choices);
    assert start[0] in multiset(password) && start[1] in multiset(password);
    CharsetsExactly(start[0]);
    CharsetsExactly(start[1]);
    forall i | 0 <= i < 12 ensures Clear(password[i]) {
      assert password[i] in multiset(start);
      CharsetsExactly(password[i]);
    }
  }
}
