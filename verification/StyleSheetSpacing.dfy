/** The spacing of a template is exactly what makes the order of replacement harmless; and
    the substitution as the program performs it, sorting first. */
module StyleSheetSpacing {
  import opened StyleSheet

  // ----- a badly spaced template has names that go wrong -----

  /** An '@' word that runs into a longer one. */
  function Clash(w: string, u: string): string {
    ['@'] + w + (['@'] + u)
  }

  predicate IsClash(w: string, u: string) {
    AllIdent(w) && AllIdent(u) && |u| == |w| + 1
  }

  predicate Contains(s: string, part: string) {
    part <= s || (s != "" && Contains(s[1..], part))
  }

  lemma {:induction false} FindClash(s: string) returns (w: string, u: string)
    requires !WellSpaced(s)
    ensures IsClash(w, u) && Contains(s, Clash(w, u))
  {
    if !WellSpaced(s[1..]) {
      w, u := FindClash(s[1..]);
    } else {
      var r := Run(s[1..]);
      w, u := s[1..][..r], s[r + 2..][..r + 1];
      assert u == s[r + 2..][..Run(s[r + 2..])][..r + 1];
      assert s[..2 * r + 3] == Clash(w, u);
    }
  }

  /** Replaced by `c`, the second word completes the name that the first word begins. */
  function Inner(u: string, c: char): Var {
    Var(['@'] + u, [c])
  }

  function Outer(w: string, c: char): Var {
    Var(['@'] + w + [c], "")
  }

  ghost predicate Trap(w: string, u: string, c: char) {
    IsClash(w, u) && IsIdent(c) && c != u[|w|]
  }

  lemma TrapIsValid(w: string, u: string, c: char)
    requires Trap(w, u, c)
    ensures ValidVars({Inner(u, c), Outer(w, c)}) && IsKey(Inner(u, c).key) && IsKey(Outer(w, c).key)
    ensures |Inner(u, c).key| == |Outer(w, c).key| && Inner(u, c).key != Outer(w, c).key
  {
  }

  /** The two names one after the other, as the program would replace them. */
  function Trapped(s: string, w: string, u: string, c: char): string {
    ReplaceAll(ReplaceAll(s, Inner(u, c).key, [c]), Outer(w, c).key, "")
  }

  function Ats(s: string): nat {
    if s == "" then 0 else (if s[0] == '@' then 1 else 0) + Ats(s[1..])
  }

  lemma {:induction false} AtsAppend(a: string, b: string)
    ensures Ats(a + b) == Ats(a) + Ats(b)
  {
    if a == "" {
      assert a + b == b;
    } else {
      AtsAppend(a[1..], b);
      assert (a + b)[1..] == a[1..] + b && (a + b)[0] == a[0];
    }
  }

  lemma {:induction false} NoAts(s: string)
    requires '@' !in s
    ensures Ats(s) == 0
  {
    if s != "" {
      NoAts(s[1..]);
    }
  }

  lemma {:induction false} ContainsLater(s: string, part: string, k: nat)
    requires part != "" && part[0] == '@' && Contains(s, part) && 0 < k <= |s|
    requires !(part <= s) && forall i | 0 < i < k :: s[i] != '@'
    ensures Contains(s[k..], part)
  {
    if k > 1 {
      assert !(part <= s[1..]);
      ContainsLater(s[1..], part, k - 1);
      assert s[1..][k - 1..] == s[k..];
    }
  }

  lemma KeyIsNotClash(key: string, w: string, u: string, s: string)
    requires IsKey(key) && IsClash(w, u) && |key| == |w| + 2 && key <= s
    ensures !(Clash(w, u) <= s)
  {
    assert Clash(w, u)[|w| + 1] == '@' && IsIdent(key[1..][|w|]);
  }

  /** A name at the front of the text is taken, and what it hides is no clash. */
  lemma KeyAtFront(key: string, w: string, u: string, s: string)
    requires IsKey(key) && IsClash(w, u) && |key| == |w| + 2 && key <= s
    ensures Contains(s, Clash(w, u)) ==> Contains(s[|key|..], Clash(w, u))
  {
    KeyIsNotClash(key, w, u, s);
    forall i | 0 < i < |key| ensures s[i] != '@' {
      assert s[i] == key[1..][i - 1];
    }
    if Contains(s, Clash(w, u)) {
      ContainsLater(s, Clash(w, u), |key|);
    }
  }

  ghost predicate Fewer(s: string, w: string, u: string, c: char)
    requires Trap(w, u, c)
  {
    TrapIsValid(w, u, c);
    var a, b := Ats(Trapped(s, w, u, c)), Ats(OnePass({Inner(u, c), Outer(w, c)}, s));
    a <= b && (Contains(s, Clash(w, u)) ==> a < b)
  }

  lemma FewerAtInner(s: string, w: string, u: string, c: char)
    requires Trap(w, u, c) && Inner(u, c).key <= s && Fewer(s[|u| + 1..], w, u, c)
    ensures Fewer(s, w, u, c)
  {
    var x, y := Inner(u, c), Outer(w, c);
    TrapIsValid(w, u, c);
    KeyAtFront(x.key, w, u, s);
    assert Longest({x, y}, s, x);
    OnePassTakes({x, y}, s, x);
    var rest := s[|u| + 1..];
    ReplaceCopies([c], ReplaceAll(rest, x.key, [c]), y.key, "");
    AtsAppend([c], Trapped(rest, w, u, c));
    AtsAppend([c], OnePass({x, y}, rest));
  }

  lemma OuterIsCopied(rest: string, w: string, u: string, c: char)
    requires Trap(w, u, c)
    ensures var x, y := Inner(u, c), Outer(w, c);
      ReplaceAll(y.key + rest, x.key, [c]) == y.key + ReplaceAll(rest, x.key, [c])
  {
    TrapIsValid(w, u, c);
    ReplacePasses(Outer(w, c).key, rest, Inner(u, c).key, [c]);
  }

  lemma OuterIsRemoved(rest: string, w: string, u: string, c: char)
    requires Trap(w, u, c)
    ensures Trapped(Outer(w, c).key + rest, w, u, c) == Trapped(rest, w, u, c)
  {
    OuterIsCopied(rest, w, u, c);
    ReplaceKey(ReplaceAll(rest, Inner(u, c).key, [c]), Outer(w, c).key, "");
    assert "" + Trapped(rest, w, u, c) == Trapped(rest, w, u, c);
  }

  lemma OuterIsTaken(s: string, w: string, u: string, c: char)
    requires Trap(w, u, c) && Outer(w, c).key <= s && ValidVars({Inner(u, c), Outer(w, c)})
    ensures var vars := {Inner(u, c), Outer(w, c)};
      OnePass(vars, s) == OnePass(vars, s[|w| + 2..])
  {
    var x, y := Inner(u, c), Outer(w, c);
    TrapIsValid(w, u, c);
    assert Longest({x, y}, s, y);
    OnePassTakes({x, y}, s, y);
    assert "" + OnePass({x, y}, s[|w| + 2..]) == OnePass({x, y}, s[|w| + 2..]);
  }

  lemma FewerAtOuter(s: string, w: string, u: string, c: char)
    requires Trap(w, u, c) && Outer(w, c).key <= s && Fewer(s[|w| + 2..], w, u, c)
    ensures Fewer(s, w, u, c)
  {
    var x, y := Inner(u, c), Outer(w, c);
    TrapIsValid(w, u, c);
    KeyAtFront(y.key, w, u, s);
    OuterIsTaken(s, w, u, c);
    assert s == y.key + s[|w| + 2..];
    OuterIsRemoved(s[|w| + 2..], w, u, c);
  }

  /** Where the clash begins, the replaced text begins with the outer name. */
  lemma ClashSprings(s: string, w: string, u: string, c: char)
    requires Trap(w, u, c) && Clash(w, u) <= s
    ensures Outer(w, c).key <= ['@'] + ReplaceAll(s[1..], Inner(u, c).key, [c])
  {
    var x := Inner(u, c);
    TrapIsValid(w, u, c);
    var rest := s[|Clash(w, u)|..];
    assert s[1..] == w + (x.key + rest);
    IdentsHaveNoAt(w);
    ReplaceCopies(w, x.key + rest, x.key, [c]);
    ReplaceKey(rest, x.key, [c]);
    Springs(w, c, ReplaceAll(rest, x.key, [c]));
  }

  lemma Springs(w: string, c: char, after: string)
    ensures Outer(w, c).key <= ['@'] + (w + ([c] + after))
  {
  }

  /** The text after an '@' that only the replacement turned into a name. */
  lemma SprungCounts(t: string, y: string)
    requires IsKey(y) && y <= ['@'] + t
    ensures Ats(ReplaceAll(['@'] + t, y, "")) == Ats(ReplaceAll(t, y, ""))
  {
    var word, rest := y[1..], t[|y| - 1..];
    assert t == word + rest by {
      assert (['@'] + t)[..|y|] == y;
    }
    assert ['@'] + t == y + rest;
    IdentsHaveNoAt(word);
    ReplaceKey(rest, y, "");
    assert "" + ReplaceAll(rest, y, "") == ReplaceAll(rest, y, "");
    ReplaceCopies(word, rest, y, "");
    AtsAppend(word, ReplaceAll(rest, y, ""));
    NoAts(word);
  }

  lemma FewerElsewhere(s: string, w: string, u: string, c: char)
    requires Trap(w, u, c) && s != "" && !(Inner(u, c).key <= s) && !(Outer(w, c).key <= s)
    requires Fewer(s[1..], w, u, c)
    ensures Fewer(s, w, u, c)
  {
    var x, y := Inner(u, c), Outer(w, c);
    TrapIsValid(w, u, c);
    OnePassSkips({x, y}, s);
    var t := ReplaceAll(s[1..], x.key, [c]);
    assert ReplaceAll(s, x.key, [c]) == [s[0]] + t;
    AtsAppend([s[0]], OnePass({x, y}, s[1..]));
    if y.key <= [s[0]] + t {
      SprungCounts(t, y.key);
    } else {
      assert ([s[0]] + t)[1..] == t;
      AtsAppend([s[0]], ReplaceAll(t, y.key, ""));
      if s[0] == '@' && Clash(w, u) <= s {
        ClashSprings(s, w, u, c);
      }
    }
  }

  lemma {:induction false} TrapCatches(s: string, w: string, u: string, c: char)
    requires Trap(w, u, c)
    ensures Fewer(s, w, u, c)
    decreases |s|
  {
    if s != "" {
      if Inner(u, c).key <= s {
        TrapCatches(s[|u| + 1..], w, u, c);
        FewerAtInner(s, w, u, c);
      } else if Outer(w, c).key <= s {
        TrapCatches(s[|w| + 2..], w, u, c);
        FewerAtOuter(s, w, u, c);
      } else {
        TrapCatches(s[1..], w, u, c);
        FewerElsewhere(s, w, u, c);
      }
    }
  }

  ghost predicate Agrees(s: string, vars: seq<Var>)
    requires LongestFirst(vars)
  {
    NonEmptyKeys(vars) && ReplaceInTurn(s, vars) == OnePass(AsSet(vars), s)
  }

  lemma BadSpacingGoesWrong(s: string) returns (vars: seq<Var>)
    requires !WellSpaced(s)
    ensures LongestFirst(vars) && !Agrees(s, vars)
  {
    var w, u := FindClash(s);
    var c := if u[|w|] == 'a' then 'b' else 'a';
    var x, y := Inner(u, c), Outer(w, c);
    TrapIsValid(w, u, c);
    TrapCatches(s, w, u, c);
    vars := [x, y];
    assert AsSet(vars) == {x, y};
    assert vars[..1] == [x] && [x][..0] == [];
    assert ReplaceInTurn(s, [x]) == ReplaceAll(ReplaceInTurn(s, []), x.key, x.value);
  }

  /** Replacing in turn, longest name first, agrees with reading the template once for every
      list of names and values, if and only if the template is well spaced. */
  lemma SpacingIsExact(s: string)
    ensures WellSpaced(s) <==> forall vars | LongestFirst(vars) :: Agrees(s, vars)
  {
    if WellSpaced(s) {
      forall vars | LongestFirst(vars) ensures Agrees(s, vars) {
        InTurnIsOnePass(s, vars);
      }
    } else {
      var vars := BadSpacingGoesWrong(s);
    }
  }

  /** A separator between any two '@' is enough. */
  lemma {:induction false} SeparatedIsWellSpaced(s: string)
    requires forall i, j | 0 <= i < j < |s| && s[i] == '@' && s[j] == '@' :: exists k :: i < k < j && !IsIdent(s[k])
                                                                                         && s[k] != '@'
    ensures WellSpaced(s)
  {
    if s != "" {
      forall i, j | 0 <= i < j < |s[1..]| && s[1..][i] == '@' && s[1..][j] == '@'
        ensures exists k :: i < k < j && !IsIdent(s[1..][k]) && s[1..][k] != '@' {
        var k :| i + 1 < k < j + 1 && !IsIdent(s[k]) && s[k] != '@';
        assert s[1..][k - 1] == s[k];
      }
      SeparatedIsWellSpaced(s[1..]);
      var r := Run(s[1..]);
      forall k | 0 < k < r + 1 ensures IsIdent(s[k]) {
        assert s[k] == s[1..][..r][k - 1];
      }
    }
  }

  // ----- the program's substitution -----

  lemma InsertKeepsOrder(sorted: seq<Var>, v: Var, i: nat)
    requires Ordered(sorted) && i <= |sorted| && v !in sorted
    requires forall k | 0 <= k < i :: |sorted[k].key| >= |v.key|
    requires forall k | i <= k < |sorted| :: |sorted[k].key| < |v.key|
    ensures Ordered(sorted[..i] + [v] + sorted[i..])
  {
  }

  lemma InsertIsSet(sorted: seq<Var>, v: Var, i: nat)
    requires i <= |sorted|
    ensures AsSet(sorted[..i] + [v] + sorted[i..]) == AsSet(sorted) + {v}
  {
  }

  /** Insertion of one name into a list that is sorted already. */
  method Insert(sorted: seq<Var>, v: Var) returns (r: seq<Var>)
    requires Ordered(sorted) && v !in sorted
    ensures Ordered(r) && AsSet(r) == AsSet(sorted) + {v}
  {
    var i := |sorted|;
    while i > 0 && |sorted[i - 1].key| < |v.key|
      invariant 0 <= i <= |sorted|
      invariant forall k | i <= k < |sorted| :: |sorted[k].key| < |v.key|
    {
      i := i - 1;
    }
    r := sorted[..i] + [v] + sorted[i..];
    InsertKeepsOrder(sorted, v, i);
    InsertIsSet(sorted, v, i);
  }

  method SortLongestFirst(vars: seq<Var>) returns (sorted: seq<Var>)
    requires forall i, j | 0 <= i < j < |vars| :: vars[i] != vars[j]
    ensures Ordered(sorted) && AsSet(sorted) == AsSet(vars)
  {
    sorted := [];
    for n := 0 to |vars|
      invariant Ordered(sorted) && AsSet(sorted) == AsSet(vars[..n])
    {
      var v := vars[n];
      assert vars[..n + 1] == vars[..n] + [v];
      assert v !in vars[..n];
      assert v !in AsSet(sorted);
      assert forall x | x in sorted :: x in AsSet(sorted);
      sorted := Insert(sorted, v);
    }
    assert vars[..|vars|] == vars;
  }

  /** Whatever the order of the list, a well-spaced template gets at every place the value
      of the longest name there. */
  method Substitute(template: string, vars: seq<Var>) returns (r: string)
    requires ValidVars(AsSet(vars)) && forall i, j | 0 <= i < j < |vars| :: vars[i] != vars[j]
    ensures exists sorted :: LongestFirst(sorted) && AsSet(sorted) == AsSet(vars)
                             && NonEmptyKeys(sorted) && r == ReplaceInTurn(template, sorted)
    ensures WellSpaced(template) ==> r == OnePass(AsSet(vars), template)
  {
    var sorted := SortLongestFirst(vars);
    r := template;
    assert forall v | v in sorted :: v in AsSet(sorted);
    for n := 0 to |sorted|
      invariant NonEmptyKeys(sorted[..n]) && r == ReplaceInTurn(template, sorted[..n])
    {
      assert sorted[..n + 1][..n] == sorted[..n];
      r := ReplaceAll(r, sorted[n].key, sorted[n].value);
    }
    assert sorted[..|sorted|] == sorted;
    if WellSpaced(template) {
      InTurnIsOnePass(template, sorted);
    }
  }
}
