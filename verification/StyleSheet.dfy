/** Placeholder substitution in the style sheet: replacing name after name, longest first,
    against reading the template once and taking the longest name at every place. */
module StyleSheet {
  datatype Var = Var(key: string, value: string)

  predicate IsIdent(c: char) {
    'a' <= c <= 'z' || 'A' <= c <= 'Z' || '0' <= c <= '9' || c == '_'
  }

  predicate AllIdent(s: string) {
    forall i | 0 <= i < |s| :: IsIdent(s[i])
  }

  predicate IsKey(s: string) {
    s != "" && s[0] == '@' && AllIdent(s[1..])
  }

  predicate ValidVar(v: Var) {
    IsKey(v.key) && '@' !in v.value
  }

  /** Names are distinct, begin with '@' and are otherwise identifiers; no value has an '@'. */
  ghost predicate ValidVars(vars: set<Var>) {
    && (forall v | v in vars :: ValidVar(v))
    && (forall u, v | u in vars && v in vars :: u.key == v.key ==> u == v)
  }

  // ----- one name after another -----

  /** Every occurrence from left to right; the text put in is not searched again. */
  function ReplaceAll(s: string, key: string, value: string): string
    requires key != ""
    decreases |s|
  {
    if s == "" then ""
    else if key <= s then value + ReplaceAll(s[|key|..], key, value)
    else [s[0]] + ReplaceAll(s[1..], key, value)
  }

  predicate NonEmptyKeys(vars: seq<Var>) {
    forall v | v in vars :: v.key != ""
  }

  function ReplaceInTurn(s: string, vars: seq<Var>): string
    requires NonEmptyKeys(vars)
  {
    if vars == [] then s
    else
      var n := |vars| - 1;
      ReplaceAll(ReplaceInTurn(s, vars[..n]), vars[n].key, vars[n].value)
  }

  // ----- one pass -----

  ghost predicate Longest(vars: set<Var>, s: string, v: Var) {
    v in vars && v.key <= s && forall u | u in vars && u.key <= s :: |u.key| <= |v.key|
  }

  ghost function OnePass(vars: set<Var>, s: string): string
    requires forall v | v in vars :: v.key != ""
    decreases |s|
  {
    if s == "" then ""
    else if exists v :: Longest(vars, s, v) then
      var v :| Longest(vars, s, v);
      v.value + OnePass(vars, s[|v.key|..])
    else [s[0]] + OnePass(vars, s[1..])
  }

  // ----- how far apart the names must be -----

  /** The length of the identifier that the text begins with. */
  function Run(s: string): (n: nat)
    ensures n <= |s| && AllIdent(s[..n]) && (n < |s| ==> !IsIdent(s[n]))
  {
    if s == "" || !IsIdent(s[0]) then 0
    else
      assert s[..1 + Run(s[1..])] == [s[0]] + s[1..][..Run(s[1..])];
      1 + Run(s[1..])
  }

  /** Where an '@' word runs straight into another, the first is at least as long. A
      template with a separator between any two '@' satisfies this trivially. */
  predicate WellSpaced(s: string) {
    if s == "" then true
    else
      && WellSpaced(s[1..])
      && (s[0] == '@' ==>
            var r := Run(s[1..]);
            r + 1 < |s| && s[r + 1] == '@' ==> Run(s[r + 2..]) <= r)
  }

  // ----- text without names is copied -----

  lemma {:induction false} ReplaceCopies(a: string, b: string, key: string, value: string)
    requires IsKey(key) && '@' !in a
    ensures ReplaceAll(a + b, key, value) == a + ReplaceAll(b, key, value)
  {
    if a == "" {
      assert a + b == b;
    } else {
      ReplaceCopies(a[1..], b, key, value);
      assert (a + b)[1..] == a[1..] + b && (a + b)[0] == a[0];
      assert [a[0]] + (a[1..] + ReplaceAll(b, key, value)) == a + ReplaceAll(b, key, value);
    }
  }

  lemma {:induction false} OnePassCopies(a: string, b: string, vars: set<Var>)
    requires ValidVars(vars) && '@' !in a
    ensures OnePass(vars, a + b) == a + OnePass(vars, b)
  {
    if a == "" {
      assert a + b == b;
    } else {
      OnePassCopies(a[1..], b, vars);
      assert (a + b)[1..] == a[1..] + b && (a + b)[0] == a[0];
      assert [a[0]] + (a[1..] + OnePass(vars, b)) == a + OnePass(vars, b);
    }
  }

  lemma IdentsHaveNoAt(s: string)
    requires AllIdent(s)
    ensures '@' !in s
  {
  }

  /** A name that is not replaced at the front is copied whole. */
  lemma ReplacePasses(word: string, b: string, key: string, value: string)
    requires IsKey(word) && IsKey(key) && !(key <= word + b)
    ensures ReplaceAll(word + b, key, value) == word + ReplaceAll(b, key, value)
  {
    IdentsHaveNoAt(word[1..]);
    assert (word + b)[1..] == word[1..] + b;
    ReplaceCopies(word[1..], b, key, value);
    assert [word[0]] + (word[1..] + ReplaceAll(b, key, value)) == word + ReplaceAll(b, key, value);
  }

  lemma ReplaceKey(b: string, key: string, value: string)
    requires key != ""
    ensures ReplaceAll(key + b, key, value) == value + ReplaceAll(b, key, value)
  {
  }

  // ----- the longest name at a place -----

  lemma OnePassTakes(vars: set<Var>, s: string, v: Var)
    requires ValidVars(vars) && Longest(vars, s, v)
    ensures OnePass(vars, s) == v.value + OnePass(vars, s[|v.key|..])
  {
  }

  lemma {:induction false} SomeIsLongest(vars: set<Var>, s: string, v: Var)
    requires v in vars && v.key <= s
    ensures exists u :: Longest(vars, s, u)
    decreases |s| - |v.key|
  {
    if !Longest(vars, s, v) {
      var u :| u in vars && u.key <= s && |u.key| > |v.key|;
      SomeIsLongest(vars, s, u);
    }
  }

  lemma OnePassSkips(vars: set<Var>, s: string)
    requires ValidVars(vars) && s != "" && forall v | v in vars :: !(v.key <= s)
    ensures OnePass(vars, s) == [s[0]] + OnePass(vars, s[1..])
  {
  }

  // ----- adding the next shorter name -----

  /** `x` is no longer than the names before it. */
  ghost predicate IsNext(vars: set<Var>, x: Var) {
    ValidVars(vars + {x}) && x !in vars && forall v | v in vars :: |x.key| <= |v.key|
  }

  lemma MatchStays(vars: set<Var>, x: Var, s: string, v: Var)
    requires IsNext(vars, x) && Longest(vars, s, v)
    ensures Longest(vars + {x}, s, v)
  {
  }

  /** The '@' word of a name that is not replaced yet is copied whole. */
  lemma KeyIsCopied(vars: set<Var>, key: string, rest: string)
    requires ValidVars(vars) && IsKey(key)
    ensures [key[0]] + OnePass(vars, key[1..] + rest) == key + OnePass(vars, rest)
  {
    IdentsHaveNoAt(key[1..]);
    OnePassCopies(key[1..], rest, vars);
    Joins(key, OnePass(vars, rest));
  }

  lemma Joins(key: string, b: string)
    requires key != ""
    ensures [key[0]] + (key[1..] + b) == key + b
  {
  }

  lemma NextIsLongest(vars: set<Var>, x: Var, s: string)
    requires IsNext(vars, x) && x.key <= s && forall v | v in vars :: !(v.key <= s)
    ensures Longest(vars + {x}, s, x)
  {
  }

  lemma NextMatches(vars: set<Var>, x: Var, s: string)
    requires IsNext(vars, x) && x.key <= s && forall v | v in vars :: !(v.key <= s)
    ensures OnePass(vars, s) == x.key + OnePass(vars, s[|x.key|..])
  {
    OnePassSkips(vars, s);
    var rest := s[|x.key|..];
    assert s[1..] == x.key[1..] + rest;
    KeyIsCopied(vars, x.key, rest);
  }

  lemma SamePrefix(key: string, a: string, b: string, n: nat)
    requires |key| <= n <= |a| && n <= |b| && a[..n] == b[..n]
    ensures key <= a <==> key <= b
  {
  }

  /** A name does not reach past a character that is no identifier character. */
  lemma Blocked(key: string, s: string, n: nat)
    requires IsKey(key) && 0 < n < |key| && (n < |s| ==> !IsIdent(s[n]))
    ensures !(key <= s)
  {
  }

  /** A name that does not match `s` does not match another text that begins with the same
      '@' word, unless it reaches past that word. */
  lemma OnlyTheWordCounts(key: string, w: string, after: string, s: string)
    requires IsKey(key) && ['@'] + w <= s && !(key <= s)
    requires |key| > |w| + 1 && after != "" ==> !IsIdent(after[0])
    ensures !(key <= ['@'] + (w + after))
  {
    var t := ['@'] + (w + after);
    if |key| <= |w| + 1 {
      assert t[..|w| + 1] == ['@'] + w == s[..|w| + 1];
      SamePrefix(key, t, s, |w| + 1);
    } else {
      Blocked(key, t, |w| + 1);
    }
  }

  /** Where no name matches the template, none matches what the longer names made of it. */
  lemma NextDoesNotAppear(vars: set<Var>, x: Var, s: string)
    requires IsNext(vars, x) && WellSpaced(s) && s != "" && s[0] == '@'
    requires forall v | v in vars + {x} :: !(v.key <= s)
    ensures !(x.key <= [s[0]] + OnePass(vars, s[1..]))
  {
    var r := Run(s[1..]);
    var w, rest := s[1..][..r], s[1..][r..];
    assert s[1..] == w + rest;
    IdentsHaveNoAt(w);
    OnePassCopies(w, rest, vars);
    assert x in vars + {x};
    if |x.key| > r + 1 {
      RestBeginsWithSeparator(vars, x, s, r);
    }
    OnlyTheWordCounts(x.key, w, OnePass(vars, rest), s);
  }

  lemma RestBeginsWithSeparator(vars: set<Var>, x: Var, s: string, r: nat)
    requires IsNext(vars, x) && WellSpaced(s) && s != "" && s[0] == '@'
    requires r == Run(s[1..]) && |x.key| > r + 1
    ensures var after := OnePass(vars, s[1..][r..]);
      after != "" ==> !IsIdent(after[0])
  {
    var rest := s[1..][r..];
    if rest != "" {
      forall v | v in vars ensures !(v.key <= rest) {
        if v.key <= rest {
          assert rest[0] == '@' && rest[1..] == s[r + 2..];
          KeyFitsRun(v.key, rest);
        }
      }
      OnePassSkips(vars, rest);
    }
  }

  lemma KeyFitsRun(key: string, s: string)
    requires IsKey(key) && key <= s
    ensures |key| <= 1 + Run(s[1..])
  {
  }

  /** Replacing the next shorter name in what the longer ones made of the template is the
      same as reading the template once with that name added. */
  lemma {:induction false} AddNext(vars: set<Var>, x: Var, s: string)
    requires IsNext(vars, x) && WellSpaced(s)
    ensures OnePass(vars + {x}, s) == ReplaceAll(OnePass(vars, s), x.key, x.value)
    decreases |s|
  {
    if s != "" {
      if v :| Longest(vars, s, v) {
        AddNextAfter(vars, x, s, v);
      } else {
        NoneMatches(vars, s);
        if x.key <= s {
          AddNextHere(vars, x, s);
        } else {
          AddNextLater(vars, x, s);
        }
      }
    }
  }

  lemma NoneMatches(vars: set<Var>, s: string)
    requires forall v :: !Longest(vars, s, v)
    ensures forall v | v in vars :: !(v.key <= s)
  {
    forall v | v in vars ensures !(v.key <= s) {
      if v.key <= s {
        SomeIsLongest(vars, s, v);
      }
    }
  }

  lemma {:induction false} WellSpacedSuffix(s: string, k: nat)
    requires WellSpaced(s) && k <= |s|
    ensures WellSpaced(s[k..])
  {
    if k > 0 {
      WellSpacedSuffix(s[1..], k - 1);
      assert s[1..][k - 1..] == s[k..];
    } else {
      assert s[0..] == s;
    }
  }

  lemma AddNextAfter(vars: set<Var>, x: Var, s: string, v: Var)
    requires IsNext(vars, x) && WellSpaced(s) && Longest(vars, s, v)
    ensures OnePass(vars + {x}, s) == ReplaceAll(OnePass(vars, s), x.key, x.value)
    decreases |s|, 0
  {
    var rest := s[|v.key|..];
    WellSpacedSuffix(s, |v.key|);
    AddNext(vars, x, rest);
    MatchStays(vars, x, s, v);
    OnePassTakes(vars, s, v);
    OnePassTakes(vars + {x}, s, v);
    ReplaceCopies(v.value, OnePass(vars, rest), x.key, x.value);
  }

  lemma AddNextHere(vars: set<Var>, x: Var, s: string)
    requires IsNext(vars, x) && WellSpaced(s) && x.key <= s && forall v | v in vars :: !(v.key <= s)
    ensures OnePass(vars + {x}, s) == ReplaceAll(OnePass(vars, s), x.key, x.value)
    decreases |s|, 0
  {
    var rest := s[|x.key|..];
    WellSpacedSuffix(s, |x.key|);
    AddNext(vars, x, rest);
    NextIsLongest(vars, x, s);
    NextMatches(vars, x, s);
    OnePassTakes(vars + {x}, s, x);
    ReplaceKey(OnePass(vars, rest), x.key, x.value);
  }

  lemma AddNextLater(vars: set<Var>, x: Var, s: string)
    requires IsNext(vars, x) && WellSpaced(s) && s != "" && !(x.key <= s) && forall v | v in vars :: !(v.key <= s)
    ensures OnePass(vars + {x}, s) == ReplaceAll(OnePass(vars, s), x.key, x.value)
    decreases |s|, 0
  {
    AddNext(vars, x, s[1..]);
    OnePassSkips(vars, s);
    OnePassSkips(vars + {x}, s);
    if s[0] == '@' {
      NextDoesNotAppear(vars, x, s);
    }
    var t := [s[0]] + OnePass(vars, s[1..]);
    assert t[1..] == OnePass(vars, s[1..]) && !(x.key <= t);
  }

  // ----- whole lists -----

  function AsSet(vars: seq<Var>): set<Var> {
    set v | v in vars
  }

  /** A list as the sort leaves it: longest names first, each name once. */
  ghost predicate LongestFirst(vars: seq<Var>) {
    ValidVars(AsSet(vars)) && Ordered(vars)
  }

  ghost predicate Ordered(vars: seq<Var>) {
    forall i, j | 0 <= i < j < |vars| :: |vars[i].key| >= |vars[j].key| && vars[i] != vars[j]
  }

  lemma SortedKeysAreNonEmpty(vars: seq<Var>)
    requires LongestFirst(vars)
    ensures NonEmptyKeys(vars)
  {
    forall v | v in vars ensures v.key != "" {
      assert v in AsSet(vars) && ValidVar(v);
    }
  }

  /** Replacing the names one after another, longest first, is reading the template once
      and taking the longest name at every place. */
  lemma {:induction false} InTurnIsOnePass(s: string, vars: seq<Var>)
    requires LongestFirst(vars) && WellSpaced(s)
    ensures NonEmptyKeys(vars) && ReplaceInTurn(s, vars) == OnePass(AsSet(vars), s)
  {
    SortedKeysAreNonEmpty(vars);
    if vars == [] {
      assert AsSet(vars) == {};
      NoNamesCopy(s);
    } else {
      var n := |vars| - 1;
      var before := AsSet(vars[..n]);
      assert AsSet(vars) == before + {vars[n]} by {
        assert vars == vars[..n] + [vars[n]];
      }
      assert vars[n] !in before;
      InTurnIsOnePass(s, vars[..n]);
      AddNext(before, vars[n], s);
    }
  }

  lemma {:induction false} NoNamesCopy(s: string)
    ensures OnePass({}, s) == s
  {
    if s != "" {
      NoNamesCopy(s[1..]);
    }
  }

  /** So the order in which the names are listed does not matter. */
  lemma OrderDoesNotMatter(s: string, vars: seq<Var>, others: seq<Var>)
    requires LongestFirst(vars) && LongestFirst(others) && WellSpaced(s)
    requires AsSet(vars) == AsSet(others)
    ensures NonEmptyKeys(vars) && NonEmptyKeys(others) && ReplaceInTurn(s, vars) == ReplaceInTurn(s, others)
  {
    SortedKeysAreNonEmpty(vars);
    SortedKeysAreNonEmpty(others);
    InTurnIsOnePass(s, vars);
    InTurnIsOnePass(s, others);
  }
}
