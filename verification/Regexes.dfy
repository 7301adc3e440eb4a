/**
 The corner of Go's regexp language the gateway uses, with its leftmost-first
 semantics: the match that starts earliest and, among those, the one a
 backtracking search would find first.
 */
module Regexes {
  import opened Wrappers

  datatype Class = Digit | DigitOrComma | Sign | Dot | Upper

  predicate In(c: Class, x: char) {
    match c
    case Digit => '0' <= x <= '9'
    case DigitOrComma => '0' <= x <= '9' || x == ','
    case Sign => x == '-' || x == '+'
    case Dot => x == '.'
    case Upper => 'A' <= x <= 'Z'
  }

  /** A class, a greedy star of a class, a greedy option, a sequence. */
  datatype Re = One(c: Class) | Many(c: Class) | Maybe(r: Re) | Then(first: Re, second: Re)

  function Plus(c: Class): Re {
    Then(One(c), Many(c))
  }

  /** Where a match starting at i may end, in the order a backtracking search tries them. */
  function Ends(re: Re, s: string, i: nat): seq<nat>
    decreases re, 0, |s| - i
  {
    match re
    case One(c) => if i < |s| && In(c, s[i]) then [i + 1] else []
    case Many(c) => if i < |s| && In(c, s[i]) then Ends(re, s, i + 1) + [i] else [i]
    case Maybe(r) => Ends(r, s, i) + [i]
    case Then(a, b) => Through(b, s, Ends(a, s, i))
  }

  function Through(re: Re, s: string, starts: seq<nat>): seq<nat>
    decreases re, 1, |starts|
  {
    if starts == [] then [] else Ends(re, s, starts[0]) + Through(re, s, starts[1..])
  }

  /** FindString, from position i on: start and end of the match. */
  function Find(re: Re, s: string, i: nat): Option<(nat, nat)>
    decreases |s| - i
  {
    if Ends(re, s, i) != [] then Some((i, Ends(re, s, i)[0]))
    else if i < |s| then Find(re, s, i + 1)
    else None
  }

  /** The part of Then(a, b) that b matches, at the first way to match both. */
  function Split(b: Re, s: string, starts: seq<nat>): Option<(nat, nat)> {
    if starts == [] then None
    else if Ends(b, s, starts[0]) != [] then Some((starts[0], Ends(b, s, starts[0])[0]))
    else Split(b, s, starts[1..])
  }

  /** FindStringSubmatch of a(b), from position i on: start and end of the group. */
  function FindGroup(a: Re, b: Re, s: string, i: nat): Option<(nat, nat)>
    decreases |s| - i
  {
    if Split(b, s, Ends(a, s, i)).Some? then Split(b, s, Ends(a, s, i))
    else if i < |s| then FindGroup(a, b, s, i + 1)
    else None
  }

  /** The first position at or after i that is not in the class. */
  function Run(c: Class, s: string, i: nat): (j: nat)
    requires i <= |s|
    ensures i <= j <= |s|
    ensures forall k :: i <= k < j ==> In(c, s[k])
    ensures j < |s| ==> !In(c, s[j])
    decreases |s| - i
  {
    if i < |s| && In(c, s[i]) then Run(c, s, i + 1) else i
  }

  lemma {:induction false} RunIs(c: Class, s: string, i: nat, j: nat)
    requires i <= j <= |s| && (forall k :: i <= k < j ==> In(c, s[k])) && (j < |s| ==> !In(c, s[j]))
    ensures Run(c, s, i) == j
  {
  }

  /** A greedy star prefers the whole run. */
  lemma {:induction false} ManyIsRun(c: Class, s: string, i: nat)
    requires i <= |s|
    ensures Ends(Many(c), s, i) != [] && Ends(Many(c), s, i)[0] == Run(c, s, i)
    decreases |s| - i
  {
    if i < |s| && In(c, s[i]) { ManyIsRun(c, s, i + 1); }
  }

  lemma PlusIsRun(c: Class, s: string, i: nat)
    requires i <= |s|
    ensures (Ends(Plus(c), s, i) != []) <==> (i < |s| && In(c, s[i]))
    ensures i < |s| && In(c, s[i]) ==> Ends(Plus(c), s, i)[0] == Run(c, s, i)
  {
    if i < |s| && In(c, s[i]) {
      ManyIsRun(c, s, i + 1);
      assert Ends(Plus(c), s, i) == Through(Many(c), s, [i + 1]);
    }
  }
}
