/** The regular expressions of the resume parser and scorer, written out as
    hand-made matchers.

    The email, phone and LinkedIn expressions are sequences of character
    classes with greedy repetition counts. `MatchSeq` runs such a sequence
    the way a backtracking regex engine does (largest count first, then
    smaller ones), and `Search` tries start positions from left to right, as
    `String.prototype.match` does with a non-global expression. Both are
    proved sound and complete against the declarative language `Accepts`.

    Literal alternations matched with the `g` and `i` flags (`str.match(/a|b/gi)`)
    are counted by `CountMatches`; section captures and the split boundaries of
    the parser are `FindSection` and `Split`. */
module Patterns {
  import opened Wrappers
  import opened Text

  /** The character classes used by the expressions. */
  datatype CharClass =
    | EmailLocal      // [a-zA-Z0-9._%+-]
    | EmailDomain     // [a-zA-Z0-9.-]
    | Letter          // [a-zA-Z]
    | Digit           // \d
    | Blank           // \s
    | Separator       // [-.\s]
    | HeaderSeparator // [\s:]
    | Handle          // [a-zA-Z0-9-]
    | Exact(c: char)  // one literal character
    | Folded(c: char) // one literal lower-case character under the `i` flag

  predicate InClass(c: char, k: CharClass) {
    match k
    case EmailLocal => IsLetter(c) || IsDigit(c) || c == '.' || c == '_' || c == '%' || c == '+' || c == '-'
    case EmailDomain => IsLetter(c) || IsDigit(c) || c == '.' || c == '-'
    case Letter => IsLetter(c)
    case Digit => IsDigit(c)
    case Blank => IsSpace(c)
    case Separator => c == '-' || c == '.' || IsSpace(c)
    case HeaderSeparator => IsSpace(c) || c == ':'
    case Handle => IsLetter(c) || IsDigit(c) || c == '-'
    case Exact(x) => c == x
    case Folded(x) => LowerChar(c) == x
  }

  predicate AllIn(w: string, k: CharClass) {
    forall i :: 0 <= i < |w| ==> InClass(w[i], k)
  }

  /** An upper repetition bound; `Unbounded` for `+` and `{n,}`. */
  datatype Bound = Upto(n: nat) | Unbounded

  /** `cls{lo,hi}`, greedy. */
  datatype Atom = Atom(cls: CharClass, lo: nat, hi: Bound)

  predicate Allows(a: Atom, count: nat) {
    a.lo <= count && (a.hi.Upto? ==> count <= a.hi.n)
  }

  /** The language of a sequence of atoms: `w` splits into consecutive pieces,
      one per atom, each made of that atom's class and of an allowed length. */
  ghost predicate Accepts(w: string, atoms: seq<Atom>)
    decreases |atoms|
  {
    if atoms == [] then w == []
    else exists c :: 0 <= c <= |w| && Allows(atoms[0], c) && AllIn(w[..c], atoms[0].cls)
                     && Accepts(w[c..], atoms[1..])
  }

  /** The language of a list of alternatives. */
  ghost predicate AcceptsAny(w: string, alts: seq<seq<Atom>>) {
    exists k :: 0 <= k < |alts| && Accepts(w, alts[k])
  }

  /** The length of the longest run of `k` characters starting at `p`. */
  function Run(s: string, p: nat, k: CharClass): (n: nat)
    requires p <= |s|
    ensures p + n <= |s| && AllIn(s[p..p + n], k)
    ensures p + n < |s| ==> !InClass(s[p + n], k)
    decreases |s| - p
  {
    if p == |s| || !InClass(s[p], k) then 0
    else
      var n := 1 + Run(s, p + 1, k);
      assert s[p..p + n] == [s[p]] + s[p + 1..p + n];
      n
  }

  /** Every run of `k` characters at `p` is at most the longest one. */
  lemma RunMaximal(s: string, p: nat, k: CharClass, c: nat)
    requires p + c <= |s| && AllIn(s[p..p + c], k)
    ensures c <= Run(s, p, k)
  {
  }

  /** The most characters a greedy atom can take at `p`. */
  function MaxCount(s: string, p: nat, a: Atom): (n: nat)
    requires p <= |s|
    ensures n <= Run(s, p, a.cls)
    ensures a.hi.Upto? ==> n <= a.hi.n
  {
    var run := Run(s, p, a.cls);
    if a.hi.Upto? && a.hi.n < run then a.hi.n else run
  }

  /** Backtracking match of `atoms` at `p`: the end of the first match in the
      engine's priority order, or `None`. */
  function MatchSeq(s: string, p: nat, atoms: seq<Atom>): (r: Option<nat>)
    requires p <= |s|
    ensures r.Some? ==> p <= r.value <= |s|
    decreases |atoms|, 1, 0
  {
    if atoms == [] then Some(p)
    else TryCounts(s, p, atoms, MaxCount(s, p, atoms[0]))
  }

  /** Tries the first atom with `count`, `count - 1`, ... characters. */
  function TryCounts(s: string, p: nat, atoms: seq<Atom>, count: nat): (r: Option<nat>)
    requires p <= |s| && atoms != [] && count <= MaxCount(s, p, atoms[0])
    ensures r.Some? ==> p <= r.value <= |s|
    decreases |atoms|, 0, count
  {
    if count < atoms[0].lo then None
    else
      match MatchSeq(s, p + count, atoms[1..])
      case Some(e) => Some(e)
      case None => if count == 0 then None else TryCounts(s, p, atoms, count - 1)
  }

  lemma {:induction false} MatchSeqSound(s: string, p: nat, atoms: seq<Atom>)
    requires p <= |s|
    ensures MatchSeq(s, p, atoms).Some? ==> Accepts(s[p..MatchSeq(s, p, atoms).value], atoms)
    decreases |atoms|, 1, 0
  {
    if atoms != [] {
      TryCountsSound(s, p, atoms, MaxCount(s, p, atoms[0]));
    }
  }

  lemma {:induction false} TryCountsSound(s: string, p: nat, atoms: seq<Atom>, count: nat)
    requires p <= |s| && atoms != [] && count <= MaxCount(s, p, atoms[0])
    ensures TryCounts(s, p, atoms, count).Some? ==>
              Accepts(s[p..TryCounts(s, p, atoms, count).value], atoms)
    decreases |atoms|, 0, count
  {
    if count < atoms[0].lo {
      assert TryCounts(s, p, atoms, count).None?;
    } else {
      var rest := MatchSeq(s, p + count, atoms[1..]);
      if rest.Some? {
        MatchSeqSound(s, p + count, atoms[1..]);
        assert TryCounts(s, p, atoms, count) == rest;
        TakeCount(s, p, rest.value, atoms, count);
      } else if count > 0 {
        assert TryCounts(s, p, atoms, count) == TryCounts(s, p, atoms, count - 1);
        TryCountsSound(s, p, atoms, count - 1);
      } else {
        assert TryCounts(s, p, atoms, count).None?;
      }
    }
  }

  /** Taking `count` characters for the first atom, then matching the rest up
      to `e`, matches all the atoms up to `e`. */
  lemma TakeCount(s: string, p: nat, e: nat, atoms: seq<Atom>, count: nat)
    requires p <= |s| && atoms != [] && atoms[0].lo <= count <= MaxCount(s, p, atoms[0])
    requires p + count <= e <= |s| && Accepts(s[p + count..e], atoms[1..])
    ensures Accepts(s[p..e], atoms)
  {
    AllInShorter(s, p, count, Run(s, p, atoms[0].cls), atoms[0].cls);
    AcceptsStep(s, p, e, atoms, count);
  }

  /** The two parts of `s[p..e]` cut at offset `n` are slices of `s`. */
  lemma SliceParts(s: string, p: nat, e: nat, n: nat)
    requires p + n <= e <= |s|
    ensures s[p..e][..n] == s[p..p + n] && s[p..e][n..] == s[p + n..e]
  {
  }

  lemma AllInShorter(s: string, p: nat, c: nat, n: nat, k: CharClass)
    requires c <= n && p + n <= |s| && AllIn(s[p..p + n], k)
    ensures AllIn(s[p..p + c], k)
  {
    assert s[p..p + c] == s[p..p + n][..c];
  }

  /** The first atom takes `s[p..p + c]`, the other atoms `s[p + c..e]`. */
  lemma AcceptsStep(s: string, p: nat, e: nat, atoms: seq<Atom>, c: nat)
    requires atoms != [] && p + c <= e <= |s|
    requires Allows(atoms[0], c) && AllIn(s[p..p + c], atoms[0].cls)
    requires Accepts(s[p + c..e], atoms[1..])
    ensures Accepts(s[p..e], atoms)
  {
    SliceParts(s, p, e, c);
  }

  /** A slice the atoms accept starts with a piece for the first atom,
      followed by a slice the remaining atoms accept. */
  lemma AcceptsFirst(s: string, p: nat, e: nat, atoms: seq<Atom>) returns (c: nat)
    requires p <= e <= |s| && atoms != [] && Accepts(s[p..e], atoms)
    ensures p + c <= e && Allows(atoms[0], c) && AllIn(s[p..p + c], atoms[0].cls)
    ensures Accepts(s[p + c..e], atoms[1..])
  {
    var w := s[p..e];
    var n :| 0 <= n <= |w| && Allows(atoms[0], n) && AllIn(w[..n], atoms[0].cls)
             && Accepts(w[n..], atoms[1..]);
    SliceParts(s, p, e, n);
    c := n;
  }

  /** The engine finds a match from `p` whenever some slice from `p` is in
      the language. */
  lemma {:induction false} MatchSeqComplete(s: string, p: nat, atoms: seq<Atom>, e: nat)
    requires p <= e <= |s| && Accepts(s[p..e], atoms)
    ensures MatchSeq(s, p, atoms).Some?
    decreases |atoms|
  {
    if atoms != [] {
      var c := AcceptsFirst(s, p, e, atoms);
      RunMaximal(s, p, atoms[0].cls, c);
      MatchSeqComplete(s, p + c, atoms[1..], e);
      TryCountsReaches(s, p, atoms, MaxCount(s, p, atoms[0]), c);
    }
  }

  /** Counting down from `m`, the engine reaches the count `c` that works,
      unless a larger count worked first. */
  lemma {:induction false} TryCountsReaches(s: string, p: nat, atoms: seq<Atom>, m: nat, c: nat)
    requires p <= |s| && atoms != [] && m <= MaxCount(s, p, atoms[0])
    requires atoms[0].lo <= c <= m
    requires MatchSeq(s, p + c, atoms[1..]).Some?
    ensures TryCounts(s, p, atoms, m).Some?
    decreases m
  {
    if MatchSeq(s, p + m, atoms[1..]).None? {
      TryCountsReaches(s, p, atoms, m - 1, c);
    }
  }

  /** An alternation `A|B|...` at `p`: the first alternative that matches. */
  function MatchAlt(s: string, p: nat, alts: seq<seq<Atom>>): (r: Option<nat>)
    requires p <= |s|
    ensures r.Some? ==> p <= r.value <= |s|
    decreases |alts|
  {
    if alts == [] then None
    else
      match MatchSeq(s, p, alts[0])
      case Some(e) => Some(e)
      case None => MatchAlt(s, p, alts[1..])
  }

  lemma {:induction false} MatchAltSound(s: string, p: nat, alts: seq<seq<Atom>>)
    requires p <= |s|
    ensures MatchAlt(s, p, alts).Some? ==> AcceptsAny(s[p..MatchAlt(s, p, alts).value], alts)
    decreases |alts|
  {
    if alts != [] {
      MatchSeqSound(s, p, alts[0]);
      if MatchSeq(s, p, alts[0]).None? {
        MatchAltSound(s, p, alts[1..]);
        if MatchAlt(s, p, alts[1..]).Some? {
          var w := s[p..MatchAlt(s, p, alts).value];
          var k :| 0 <= k < |alts[1..]| && Accepts(w, alts[1..][k]);
          assert Accepts(w, alts[k + 1]);
        }
      } else {
        assert Accepts(s[p..MatchAlt(s, p, alts).value], alts[0]);
      }
    }
  }

  lemma {:induction false} MatchAltComplete(s: string, p: nat, alts: seq<seq<Atom>>, e: nat)
    requires p <= e <= |s| && AcceptsAny(s[p..e], alts)
    ensures MatchAlt(s, p, alts).Some?
    decreases |alts|
  {
    var k :| 0 <= k < |alts| && Accepts(s[p..e], alts[k]);
    if k == 0 {
      MatchSeqComplete(s, p, alts[0], e);
    } else if MatchSeq(s, p, alts[0]).None? {
      assert Accepts(s[p..e], alts[1..][k - 1]);
      MatchAltComplete(s, p, alts[1..], e);
    }
  }

  // ---------------------------------------------------------------------
  // Which match the engine prefers

  /** A parse of `s` from `p` by `atoms`: atom `i` takes the next `cs[i]`
      characters, an allowed count of characters of its class. */
  ghost predicate Parse(s: string, p: nat, atoms: seq<Atom>, cs: seq<nat>)
    decreases |atoms|
  {
    |cs| == |atoms|
    && (atoms != [] ==>
          p + cs[0] <= |s| && Allows(atoms[0], cs[0]) && AllIn(s[p..p + cs[0]], atoms[0].cls)
          && Parse(s, p + cs[0], atoms[1..], cs[1..]))
  }

  /** The number of characters a parse takes. */
  function Total(cs: seq<nat>): nat
    decreases |cs|
  {
    if cs == [] then 0 else cs[0] + Total(cs[1..])
  }

  /** `a` is at most `b` in lexicographic order. */
  predicate LexAtMost(a: seq<nat>, b: seq<nat>)
    decreases |a|
  {
    a == [] || b == [] || a[0] < b[0] || (a[0] == b[0] && LexAtMost(a[1..], b[1..]))
  }

  /** The parse a backtracking engine with greedy counts prefers: the first
      atom takes as much as it can, then the second, and so on, so no other
      parse is lexicographically greater. */
  ghost predicate GreediestParse(s: string, p: nat, atoms: seq<Atom>, cs: seq<nat>) {
    Parse(s, p, atoms, cs) && forall ds :: Parse(s, p, atoms, ds) ==> LexAtMost(ds, cs)
  }

  /** The greediest parse among those whose first count is at most `m`. */
  ghost predicate GreediestUpTo(s: string, p: nat, atoms: seq<Atom>, m: nat, cs: seq<nat>) {
    atoms != [] && Parse(s, p, atoms, cs) && cs[0] <= m
    && forall ds :: Parse(s, p, atoms, ds) && ds[0] <= m ==> LexAtMost(ds, cs)
  }

  /** `MatchSeq` ends where the greediest parse ends, and fails exactly when
      there is no parse. */
  lemma {:induction false} MatchSeqGreediest(s: string, p: nat, atoms: seq<Atom>)
    requires p <= |s|
    ensures MatchSeq(s, p, atoms).Some? ==>
              exists cs :: GreediestParse(s, p, atoms, cs) && p + Total(cs) == MatchSeq(s, p, atoms).value
    ensures MatchSeq(s, p, atoms).None? ==> forall ds :: !Parse(s, p, atoms, ds)
    decreases |atoms|, 1, 0
  {
    if atoms == [] {
      var cs: seq<nat> := [];
      assert Parse(s, p, atoms, cs);
      assert GreediestParse(s, p, atoms, cs);
    } else {
      var m := MaxCount(s, p, atoms[0]);
      TryCountsGreediest(s, p, atoms, m);
      forall ds | Parse(s, p, atoms, ds) ensures ds[0] <= m {
        RunMaximal(s, p, atoms[0].cls, ds[0]);
      }
      if MatchSeq(s, p, atoms).Some? {
        var cs :| GreediestUpTo(s, p, atoms, m, cs) && p + Total(cs) == MatchSeq(s, p, atoms).value;
        assert GreediestParse(s, p, atoms, cs);
      }
    }
  }

  /** Counting down from `m`, the engine settles on the greediest parse whose
      first count is at most `m`. */
  lemma {:induction false} TryCountsGreediest(s: string, p: nat, atoms: seq<Atom>, m: nat)
    requires p <= |s| && atoms != [] && m <= MaxCount(s, p, atoms[0])
    ensures TryCounts(s, p, atoms, m).Some? ==>
              exists cs :: GreediestUpTo(s, p, atoms, m, cs) && p + Total(cs) == TryCounts(s, p, atoms, m).value
    ensures TryCounts(s, p, atoms, m).None? ==> forall ds :: Parse(s, p, atoms, ds) ==> ds[0] > m
    decreases |atoms|, 0, m
  {
    if m < atoms[0].lo {
      assert TryCounts(s, p, atoms, m).None?;
    } else {
      MatchSeqGreediest(s, p + m, atoms[1..]);
      var rest := MatchSeq(s, p + m, atoms[1..]);
      if rest.Some? {
        assert TryCounts(s, p, atoms, m) == rest;
        var rs :| GreediestParse(s, p + m, atoms[1..], rs) && p + m + Total(rs) == rest.value;
        TakeGreediest(s, p, atoms, m, rs);
      } else {
        SkipCount(s, p, atoms, m, p + m, atoms[1..]);
        if m == 0 {
          assert TryCounts(s, p, atoms, m).None?;
        } else {
          TryCountsGreediest(s, p, atoms, m - 1);
          CountDown(s, p, atoms, m);
        }
      }
    }
  }

  /** When no parse gives the first atom `m` characters, the greediest parse
      up to `m` is the greediest up to `m - 1`. */
  lemma CountDown(s: string, p: nat, atoms: seq<Atom>, m: nat)
    requires p <= |s| && atoms != [] && atoms[0].lo <= m <= MaxCount(s, p, atoms[0]) && 0 < m
    requires MatchSeq(s, p + m, atoms[1..]).None?
    requires forall ds :: Parse(s, p, atoms, ds) ==> ds[0] != m
    requires TryCounts(s, p, atoms, m - 1).Some? ==>
               exists cs :: GreediestUpTo(s, p, atoms, m - 1, cs) && p + Total(cs) == TryCounts(s, p, atoms, m - 1).value
    requires TryCounts(s, p, atoms, m - 1).None? ==> forall ds :: Parse(s, p, atoms, ds) ==> ds[0] > m - 1
    ensures TryCounts(s, p, atoms, m).Some? ==>
              exists cs :: GreediestUpTo(s, p, atoms, m, cs) && p + Total(cs) == TryCounts(s, p, atoms, m).value
    ensures TryCounts(s, p, atoms, m).None? ==> forall ds :: Parse(s, p, atoms, ds) ==> ds[0] > m
  {
    assert TryCounts(s, p, atoms, m) == TryCounts(s, p, atoms, m - 1);
    if TryCounts(s, p, atoms, m).Some? {
      var cs :| GreediestUpTo(s, p, atoms, m - 1, cs) && p + Total(cs) == TryCounts(s, p, atoms, m).value;
      assert GreediestUpTo(s, p, atoms, m, cs);
    }
  }

  /** The first atom taking `m` characters in front of the greediest parse of
      the rest is the greediest parse whose first count is at most `m`. */
  lemma TakeGreediest(s: string, p: nat, atoms: seq<Atom>, m: nat, rs: seq<nat>)
    requires p <= |s| && atoms != [] && atoms[0].lo <= m <= MaxCount(s, p, atoms[0])
    requires GreediestParse(s, p + m, atoms[1..], rs)
    ensures GreediestUpTo(s, p, atoms, m, [m] + rs) && Total([m] + rs) == m + Total(rs)
  {
    var cs := [m] + rs;
    AllInShorter(s, p, m, Run(s, p, atoms[0].cls), atoms[0].cls);
    ParseCons(s, p, atoms, m, rs);
    forall ds | Parse(s, p, atoms, ds) && ds[0] <= m ensures LexAtMost(ds, cs) {
      assert ds[0] == m ==> Parse(s, p + m, atoms[1..], ds[1..]);
    }
  }

  /** Without a parse of the rest after `m` characters, no parse gives the
      first atom `m` characters. */
  lemma SkipCount(s: string, p: nat, atoms: seq<Atom>, m: nat, q: nat, rest: seq<Atom>)
    requires atoms != [] && q == p + m && rest == atoms[1..]
    requires forall ds :: !Parse(s, q, rest, ds)
    ensures forall ds :: Parse(s, p, atoms, ds) ==> ds[0] != m
  {
    forall ds | Parse(s, p, atoms, ds) ensures ds[0] != m {
      assert !Parse(s, q, rest, ds[1..]);
    }
  }

  /** The alternative the engine takes at `p`: `k` is the first alternative
      with a parse there, and `cs` its greediest parse. */
  ghost predicate AltChoice(s: string, p: nat, alts: seq<seq<Atom>>, k: nat, cs: seq<nat>) {
    k < |alts| && GreediestParse(s, p, alts[k], cs)
    && forall j, ds :: 0 <= j < k ==> !Parse(s, p, alts[j], ds)
  }

  /** `MatchAlt` ends where the first alternative that parses ends its
      greediest parse. */
  lemma {:induction false} MatchAltGreediest(s: string, p: nat, alts: seq<seq<Atom>>)
    requires p <= |s|
    ensures MatchAlt(s, p, alts).Some? ==>
              exists k: nat, cs :: AltChoice(s, p, alts, k, cs) && p + Total(cs) == MatchAlt(s, p, alts).value
    decreases |alts|
  {
    if alts != [] {
      MatchSeqGreediest(s, p, alts[0]);
      if MatchSeq(s, p, alts[0]).Some? {
        var cs :| GreediestParse(s, p, alts[0], cs) && p + Total(cs) == MatchSeq(s, p, alts[0]).value;
        assert AltChoice(s, p, alts, 0, cs);
      } else {
        MatchAltGreediest(s, p, alts[1..]);
        if MatchAlt(s, p, alts[1..]).Some? {
          var k: nat, cs :| AltChoice(s, p, alts[1..], k, cs) && p + Total(cs) == MatchAlt(s, p, alts[1..]).value;
          forall j, ds | 0 <= j < k + 1 ensures !Parse(s, p, alts[j], ds) {
            if j > 0 {
              assert alts[j] == alts[1..][j - 1];
            }
          }
          assert AltChoice(s, p, alts, k + 1, cs);
        }
      }
    }
  }

  /** A piece for the first atom in front of a parse of the rest is a parse. */
  lemma ParseCons(s: string, p: nat, atoms: seq<Atom>, c: nat, rs: seq<nat>)
    requires atoms != [] && p + c <= |s| && Allows(atoms[0], c) && AllIn(s[p..p + c], atoms[0].cls)
    requires Parse(s, p + c, atoms[1..], rs)
    ensures Parse(s, p, atoms, [c] + rs) && Total([c] + rs) == c + Total(rs)
  {
    var cs := [c] + rs;
    assert cs[0] == c && cs[1..] == rs;
  }

  /** Every word the atoms accept is a parse of it. */
  lemma {:induction false} AcceptsParse(s: string, p: nat, e: nat, atoms: seq<Atom>)
    requires p <= e <= |s| && Accepts(s[p..e], atoms)
    ensures exists ds :: Parse(s, p, atoms, ds) && p + Total(ds) == e
    decreases |atoms|
  {
    if atoms == [] {
      var ds: seq<nat> := [];
      assert |s[p..e]| == 0;
      assert Parse(s, p, atoms, ds);
    } else {
      var c := AcceptsFirst(s, p, e, atoms);
      AcceptsParse(s, p + c, e, atoms[1..]);
      var rs :| Parse(s, p + c, atoms[1..], rs) && p + c + Total(rs) == e;
      ParseCons(s, p, atoms, c, rs);
    }
  }

  /** When every atom but the last takes a fixed count, a parse that is
      lexicographically smaller is no longer. */
  lemma {:induction false} FixedCountsLongest(s: string, p: nat, atoms: seq<Atom>, cs: seq<nat>, ds: seq<nat>)
    requires Parse(s, p, atoms, cs) && Parse(s, p, atoms, ds) && LexAtMost(ds, cs)
    requires forall i :: 0 <= i < |atoms| - 1 ==> atoms[i].hi == Upto(atoms[i].lo)
    ensures Total(ds) <= Total(cs)
    decreases |atoms|
  {
    if |atoms| == 1 {
      assert cs[1..] == [] && ds[1..] == [];
    } else if |atoms| > 1 {
      assert atoms[0].hi == Upto(atoms[0].lo);
      assert ds[0] == cs[0];
      forall i | 0 <= i < |atoms[1..]| - 1 ensures atoms[1..][i].hi == Upto(atoms[1..][i].lo) {
        assert atoms[1..][i] == atoms[i + 1];
      }
      FixedCountsLongest(s, p + cs[0], atoms[1..], cs[1..], ds[1..]);
    }
  }

  /** A character outside class `k` at `x` lies outside every run of `k`
      characters that starts at or before `x`. */
  lemma RunStops(s: string, p: nat, n: nat, k: CharClass, x: nat)
    requires p + n <= |s| && AllIn(s[p..p + n], k) && p <= x < |s| && !InClass(s[x], k)
    ensures x >= p + n
  {
  }

  /** The pieces of an email parse: `a` local characters, `@`, `d` domain
      characters, `.`, `l` letters. */
  lemma EmailParseShape(s: string, q: nat, cs: seq<nat>)
    requires Parse(s, q, EmailPattern[0], cs)
    ensures |cs| == 5 && cs[1] == 1 && cs[3] == 1
    ensures Total(cs) == cs[0] + cs[2] + cs[4] + 2 && q + Total(cs) <= |s|
    ensures AllIn(s[q..q + cs[0]], EmailLocal) && s[q + cs[0]] == '@'
    ensures s[q + cs[0] + 1 + cs[2]] == '.'
    ensures AllIn(s[q + cs[0] + 2 + cs[2]..q + Total(cs)], Letter)
  {
    var e0 := EmailPattern[0];
    var e1, c1 := e0[1..], cs[1..];
    var e2, c2 := e1[1..], c1[1..];
    var e3, c3 := e2[1..], c2[1..];
    var e4, c4 := e3[1..], c3[1..];
    var a := cs[0];
    assert Parse(s, q + a, e1, c1);
    assert e1[0] == Atom(Exact('@'), 1, Upto(1));
    assert c1[0] == 1;
    assert Parse(s, q + a + 1, e2, c2);
    assert s[q + a..q + a + 1][0] == s[q + a];
    var d := c2[0];
    assert e2[0] == Atom(EmailDomain, 1, Unbounded);
    assert Parse(s, q + a + 1 + d, e3, c3);
    assert e3[0] == Atom(Exact('.'), 1, Upto(1));
    assert c3[0] == 1;
    assert Parse(s, q + a + 2 + d, e4, c4);
    assert s[q + a + 1 + d..q + a + 2 + d][0] == s[q + a + 1 + d];
    var l := c4[0];
    assert e4[0] == Atom(Letter, 2, Unbounded);
    assert |c4| == 1 && c4[1..] == [];
    assert Total(c4) == l;
    assert Total(c3) == 1 + l;
    assert Total(c2) == d + 1 + l;
    assert Total(c1) == 1 + d + 1 + l;
  }

  /** An email parse no greater in lexicographic order is no longer: both
      local parts are the whole run before `@`, and a domain that stops at an
      earlier `.` ends before that `.`. */
  lemma EmailLexLongest(s: string, q: nat, cs: seq<nat>, ds: seq<nat>)
    requires Parse(s, q, EmailPattern[0], cs) && Parse(s, q, EmailPattern[0], ds) && LexAtMost(ds, cs)
    ensures Total(ds) <= Total(cs)
  {
    EmailParseShape(s, q, cs);
    EmailParseShape(s, q, ds);
    var a, d, l := cs[0], cs[2], cs[4];
    var d', l' := ds[2], ds[4];
    RunStops(s, q, a, EmailLocal, q + ds[0]);
    RunStops(s, q, ds[0], EmailLocal, q + a);
    assert LexAtMost(ds[1..], cs[1..]);
    assert LexAtMost(ds[1..][1..], cs[1..][1..]);
    assert ds[1..][1..] == ds[2..] && cs[1..][1..] == cs[2..];
    if d' == d {
      assert LexAtMost(ds[2..][1..], cs[2..][1..]);
      assert LexAtMost(ds[2..][1..][1..], cs[2..][1..][1..]);
      assert ds[2..][1..][1..][0] == l' && cs[2..][1..][1..][0] == l;
    } else {
      assert d' < d;
      RunStops(s, q + a + 2 + d', l', Letter, q + a + 1 + d);
    }
  }

  /** Every atom of the LinkedIn expression but the handle is one fixed character. */
  lemma LinkedInFixed()
    ensures forall i :: 0 <= i < |LinkedInPattern[0]| - 1 ==>
              LinkedInPattern[0][i].hi == Upto(LinkedInPattern[0][i].lo)
  {
    var lit := Literal("linkedin.com/in/", true);
    forall i | 0 <= i < |LinkedInPattern[0]| - 1
      ensures LinkedInPattern[0][i].hi == Upto(LinkedInPattern[0][i].lo)
    {
      assert LinkedInPattern[0][i] == lit[i];
    }
  }

  /** A match: the slice `s[start..end]`. */
  datatype Span = Span(start: nat, end: nat)

  /** The leftmost start at or after `p` where the alternation matches. */
  function SearchFrom(s: string, alts: seq<seq<Atom>>, p: nat): (r: Option<Span>)
    requires p <= |s|
    ensures r.Some? ==> p <= r.value.start <= r.value.end <= |s|
                        && MatchAlt(s, r.value.start, alts) == Some(r.value.end)
    ensures r.Some? ==> forall q :: p <= q < r.value.start ==> MatchAlt(s, q, alts).None?
    ensures r.None? ==> forall q :: p <= q <= |s| ==> MatchAlt(s, q, alts).None?
    decreases |s| - p
  {
    match MatchAlt(s, p, alts)
    case Some(e) => Some(Span(p, e))
    case None => if p == |s| then None else SearchFrom(s, alts, p + 1)
  }

  /** `s.match(re)` for a non-global `re`: the first match, scanning start positions from 0. */
  function Search(s: string, alts: seq<seq<Atom>>): (r: Option<Span>)
    ensures r.Some? ==> r.value.start <= r.value.end <= |s|
  {
    SearchFrom(s, alts, 0)
  }

  /** The match `Search` reports is in the language, ends where the engine's
      order of preference puts its end, no slice starting earlier is in the
      language, and `None` means no slice of `s` is in the language at all. */
  lemma SearchCorrect(s: string, alts: seq<seq<Atom>>)
    ensures Search(s, alts).Some? ==>
              var sp := Search(s, alts).value;
              AcceptsAny(s[sp.start..sp.end], alts)
              && PreferredEnd(s, alts, sp.start, sp.end)
              && forall q, e :: 0 <= q < sp.start && q <= e <= |s| ==> !AcceptsAny(s[q..e], alts)
    ensures Search(s, alts).None? ==>
              forall q, e :: 0 <= q <= e <= |s| ==> !AcceptsAny(s[q..e], alts)
  {
    var r := Search(s, alts);
    if r.Some? {
      MatchAltSound(s, r.value.start, alts);
      MatchAltGreediest(s, r.value.start, alts);
    }
    forall q, e | 0 <= q <= e <= |s| && (r.None? || q < r.value.start)
      ensures !AcceptsAny(s[q..e], alts)
    {
      if AcceptsAny(s[q..e], alts) {
        MatchAltComplete(s, q, alts, e);
      }
    }
  }

  /** The slice a search found, or "" when there is none. */
  function MatchedText(s: string, alts: seq<seq<Atom>>): (r: string)
    ensures r == "" || IsSliceOf(r, s)
  {
    match Search(s, alts)
    case Some(sp) => SliceAt(s, sp.start, sp.end); s[sp.start..sp.end]
    case None => ""
  }

  /** Some atom of the sequence must take at least one character. */
  predicate NeedsInput(atoms: seq<Atom>) {
    exists k :: 0 <= k < |atoms| && atoms[k].lo >= 1
  }

  /** A sequence with a mandatory atom accepts only non-empty words. */
  lemma {:induction false} AcceptsNonEmpty(w: string, atoms: seq<Atom>)
    requires NeedsInput(atoms) && Accepts(w, atoms)
    ensures w != []
    decreases |atoms|
  {
    var c :| 0 <= c <= |w| && Allows(atoms[0], c) && AllIn(w[..c], atoms[0].cls)
             && Accepts(w[c..], atoms[1..]);
    if atoms[0].lo == 0 {
      var k :| 0 <= k < |atoms| && atoms[k].lo >= 1;
      assert atoms[1..][k - 1].lo >= 1;
      AcceptsNonEmpty(w[c..], atoms[1..]);
    }
  }

  /** No slice of `s` starting before `q` is in the language. */
  ghost predicate NoMatchBefore(s: string, alts: seq<seq<Atom>>, q: nat) {
    forall q', e :: 0 <= q' < q && q' <= e <= |s| ==> !AcceptsAny(s[q'..e], alts)
  }

  /** The engine's order of preference ends its match at `q` at `e`: the
      first alternative with a parse at `q`, greediest parse first. */
  ghost predicate PreferredEnd(s: string, alts: seq<seq<Atom>>, q: nat, e: nat) {
    exists k: nat, cs :: AltChoice(s, q, alts, k, cs) && q + Total(cs) == e
  }

  /** No slice of `s` at all is in the language. */
  ghost predicate NoMatch(s: string, alts: seq<seq<Atom>>) {
    forall q, e :: 0 <= q <= e <= |s| ==> !AcceptsAny(s[q..e], alts)
  }

  /** `w` is in the language and occurs in `s` where no earlier match
      starts, and it ends where the engine prefers to end a match from there. */
  ghost predicate LeftmostMatch(w: string, s: string, alts: seq<seq<Atom>>) {
    AcceptsAny(w, alts)
    && exists q: nat :: OccursAt(s, w, q) && NoMatchBefore(s, alts, q) && PreferredEnd(s, alts, q, q + |w|)
  }

  /** No slice of `s` from `q` that ends after `e` is in the language. */
  ghost predicate NoLongerAt(s: string, alts: seq<seq<Atom>>, q: nat, e: nat) {
    forall e' :: q <= e < e' <= |s| ==> !AcceptsAny(s[q..e'], alts)
  }

  /** `w` is the leftmost-longest match in `s`: it is in the language, no
      match starts earlier, and none from the same start is longer. */
  ghost predicate LeftmostLongestMatch(w: string, s: string, alts: seq<seq<Atom>>) {
    AcceptsAny(w, alts)
    && exists q: nat :: OccursAt(s, w, q) && NoMatchBefore(s, alts, q) && NoLongerAt(s, alts, q, q + |w|)
  }

  /** For the email expression the engine's preferred end is the longest
      match from the start. */
  lemma EmailPreferredLongest(s: string, q: nat, e: nat)
    requires q <= e <= |s| && PreferredEnd(s, EmailPattern, q, e)
    ensures NoLongerAt(s, EmailPattern, q, e)
  {
    var k: nat, cs :| AltChoice(s, q, EmailPattern, k, cs) && q + Total(cs) == e;
    forall e' | q <= e < e' <= |s| ensures !AcceptsAny(s[q..e'], EmailPattern) {
      if AcceptsAny(s[q..e'], EmailPattern) {
        AcceptsParse(s, q, e', EmailPattern[0]);
        var ds :| Parse(s, q, EmailPattern[0], ds) && q + Total(ds) == e';
        assert LexAtMost(ds, cs);
        EmailLexLongest(s, q, cs, ds);
      }
    }
  }

  /** The leftmost email match is also the longest from its start. */
  lemma EmailLeftmostLongest(w: string, s: string)
    requires LeftmostMatch(w, s, EmailPattern)
    ensures LeftmostLongestMatch(w, s, EmailPattern)
  {
    var q: nat :| OccursAt(s, w, q) && NoMatchBefore(s, EmailPattern, q) && PreferredEnd(s, EmailPattern, q, q + |w|);
    EmailPreferredLongest(s, q, q + |w|);
  }

  /** For the LinkedIn expression the engine's preferred end is the longest
      match from the start: the handle takes its whole run. */
  lemma LinkedInPreferredLongest(s: string, q: nat, e: nat)
    requires q <= e <= |s| && PreferredEnd(s, LinkedInPattern, q, e)
    ensures NoLongerAt(s, LinkedInPattern, q, e)
  {
    var k: nat, cs :| AltChoice(s, q, LinkedInPattern, k, cs) && q + Total(cs) == e;
    LinkedInFixed();
    forall e' | q <= e < e' <= |s| ensures !AcceptsAny(s[q..e'], LinkedInPattern) {
      if AcceptsAny(s[q..e'], LinkedInPattern) {
        AcceptsParse(s, q, e', LinkedInPattern[0]);
        var ds :| Parse(s, q, LinkedInPattern[0], ds) && q + Total(ds) == e';
        FixedCountsLongest(s, q, LinkedInPattern[0], cs, ds);
      }
    }
  }

  /** The leftmost LinkedIn match is also the longest from its start. */
  lemma LinkedInLeftmostLongest(w: string, s: string)
    requires LeftmostMatch(w, s, LinkedInPattern)
    ensures LeftmostLongestMatch(w, s, LinkedInPattern)
  {
    var q: nat :| OccursAt(s, w, q) && NoMatchBefore(s, LinkedInPattern, q) && PreferredEnd(s, LinkedInPattern, q, q + |w|);
    LinkedInPreferredLongest(s, q, q + |w|);
  }

  /** What `s.match(re)?.[0] ?? ""` yields when every alternative needs input:
      the leftmost match, and "" exactly when no slice of `s` is in the language. */
  lemma MatchedTextCorrect(s: string, alts: seq<seq<Atom>>)
    requires forall k :: 0 <= k < |alts| ==> NeedsInput(alts[k])
    ensures MatchedText(s, alts) != "" ==> LeftmostMatch(MatchedText(s, alts), s, alts)
    ensures MatchedText(s, alts) == "" <==> NoMatch(s, alts)
  {
    SearchCorrect(s, alts);
    var r := Search(s, alts);
    if r.Some? {
      var w := s[r.value.start..r.value.end];
      var k :| 0 <= k < |alts| && Accepts(w, alts[k]);
      AcceptsNonEmpty(w, alts[k]);
      assert OccursAt(s, w, r.value.start);
    }
  }

  /** One atom per character of a literal, each matching exactly one character. */
  function Literal(w: string, fold: bool): (r: seq<Atom>)
    ensures |r| == |w|
  {
    seq(|w|, i requires 0 <= i < |w| => Atom(if fold then Folded(w[i]) else Exact(w[i]), 1, Upto(1)))
  }

  /** `/[a-zA-Z0-9._%+-]+@[a-zA-Z0-9.-]+\.[a-zA-Z]{2,}/` */
  const EmailPattern: seq<seq<Atom>> := [[
    Atom(EmailLocal, 1, Unbounded), Atom(Exact('@'), 1, Upto(1)), Atom(EmailDomain, 1, Unbounded),
    Atom(Exact('.'), 1, Upto(1)), Atom(Letter, 2, Unbounded)
  ]]

  /** The mandatory part of the phone expression,
      `\(?\d{3}\)?[-.\s]?\d{3}[-.\s]?\d{4}`. */
  const PhoneBody: seq<Atom> := [
    Atom(Exact('('), 0, Upto(1)), Atom(Digit, 3, Upto(3)), Atom(Exact(')'), 0, Upto(1)),
    Atom(Separator, 0, Upto(1)), Atom(Digit, 3, Upto(3)), Atom(Separator, 0, Upto(1)),
    Atom(Digit, 4, Upto(4))
  ]

  /** `/(\+?\d{1,3}[-.\s]?)?\(?\d{3}\)?[-.\s]?\d{3}[-.\s]?\d{4}/`: the greedy
      optional group is tried first with the group, then without it. */
  const PhonePattern: seq<seq<Atom>> := [
    [Atom(Exact('+'), 0, Upto(1)), Atom(Digit, 1, Upto(3)), Atom(Separator, 0, Upto(1))] + PhoneBody,
    PhoneBody
  ]

  /** `/linkedin\.com\/in\/[a-zA-Z0-9-]+/i` */
  const LinkedInPattern: seq<seq<Atom>> := [Literal("linkedin.com/in/", true) + [Atom(Handle, 1, Unbounded)]]

  // ---------------------------------------------------------------------
  // Literal alternations: `str.match(/w1|w2|.../gi)`

  predicate NonEmptyWords(words: seq<string>) {
    forall k :: 0 <= k < |words| ==> |words[k]| > 0
  }

  /** The first of `words`, in the order of the alternation, occurring in `t` at `i`. */
  function WordAt(t: string, i: nat, words: seq<string>): (r: Option<string>)
    ensures r.Some? ==> r.value in words && OccursAt(t, r.value, i)
    ensures r.None? ==> forall k :: 0 <= k < |words| ==> !OccursAt(t, words[k], i)
    decreases |words|
  {
    if words == [] then None
    else if OccursAt(t, words[0], i) then Some(words[0])
    else WordAt(t, i, words[1..])
  }

  /** The number of matches a global search finds from `i` on: after a match
      the search resumes at its end (one position further for an empty
      match), otherwise one position further. */
  function CountMatchesFrom(t: string, words: seq<string>, i: nat): (n: nat)
    requires i <= |t|
    decreases |t| - i
  {
    if i == |t| then 0
    else
      match WordAt(t, i, words)
      case Some(w) => 1 + CountMatchesFrom(t, words, if w == [] then i + 1 else i + |w|)
      case None => CountMatchesFrom(t, words, i + 1)
  }

  /** `(s.match(/w1|w2|.../gi) || []).length` for lower-case words. */
  function CountMatches(s: string, words: seq<string>): nat
  {
    CountMatchesFrom(Lower(s), words, 0)
  }

  /** Some word occurs in `t` at or after `i`. */
  ghost predicate SomeWordFrom(t: string, words: seq<string>, i: nat) {
    exists j, k :: i <= j && 0 <= k < |words| && OccursAt(t, words[k], j)
  }

  /** A global search finds nothing exactly when no word occurs at all. */
  lemma {:induction false} CountMatchesPositive(t: string, words: seq<string>, i: nat)
    requires NonEmptyWords(words) && i <= |t|
    ensures CountMatchesFrom(t, words, i) > 0 <==> SomeWordFrom(t, words, i)
    decreases |t| - i
  {
    if i < |t| {
      match WordAt(t, i, words)
      case Some(w) =>
        var k :| 0 <= k < |words| && words[k] == w;
        assert OccursAt(t, words[k], i);
      case None =>
        CountMatchesPositive(t, words, i + 1);
        if SomeWordFrom(t, words, i) {
          var j, k :| i <= j && 0 <= k < |words| && OccursAt(t, words[k], j);
          assert j != i;
          assert SomeWordFrom(t, words, i + 1);
        }
    }
  }

  // ---------------------------------------------------------------------
  // Section captures:
  //   /(?:h1|h2|...)[\s:]+([^]*?)(?=\n(?:t1|t2|...)|$)/i

  /** The end of the first header word (in alternation order) that occurs in `t`
      at `i` and is followed by a `[\s:]` character. */
  function HeaderAt(t: string, i: nat, heads: seq<string>): (r: Option<nat>)
    ensures r.Some? ==> HeadEndsAt(t, i, heads, r.value)
    ensures r.Some? ==> r.value < |t| && InClass(t[r.value], HeaderSeparator)
    ensures r.None? ==> NoHeaderAt(t, i, heads)
    decreases |heads|
  {
    if heads == [] then None
    else if OccursAt(t, heads[0], i) && i + |heads[0]| < |t| && InClass(t[i + |heads[0]|], HeaderSeparator)
    then Some(i + |heads[0]|)
    else
      var r := HeaderAt(t, i, heads[1..]);
      assert forall k :: 1 <= k < |heads| ==> heads[k] == heads[1..][k - 1];
      r
  }

  /** One of the header words occurs in `t` at `i` and ends at `e`. */
  ghost predicate HeadEndsAt(t: string, i: nat, heads: seq<string>, e: nat) {
    exists k :: 0 <= k < |heads| && OccursAt(t, heads[k], i) && e == i + |heads[k]|
  }

  /** No header word occurs in `t` at `i` followed by a `[\s:]` character. */
  ghost predicate NoHeaderAt(t: string, i: nat, heads: seq<string>) {
    forall k :: 0 <= k < |heads| && OccursAt(t, heads[k], i) ==>
      i + |heads[k]| == |t| || !InClass(t[i + |heads[k]|], HeaderSeparator)
  }

  /** The lookahead `(?=\n(?:t1|t2|...))` holds at `q`. */
  predicate StopAt(t: string, q: nat, stops: seq<string>) {
    q < |t| && t[q] == '\n' && WordAt(t, q + 1, stops).Some?
  }

  /** Where the lazy capture `([^]*?)` starting at `q` ends: the first position
      where the lookahead holds, or the end of the text. */
  function BodyEnd(t: string, q: nat, stops: seq<string>): (e: nat)
    requires q <= |t|
    ensures q <= e <= |t|
    ensures e < |t| ==> StopAt(t, e, stops)
    ensures forall x :: q <= x < e ==> !StopAt(t, x, stops)
    decreases |t| - q
  {
    if q == |t| || StopAt(t, q, stops) then q else BodyEnd(t, q + 1, stops)
  }

  /** A captured section: the header starts at `start`, the captured text is `s[body..end]`. */
  datatype Section = Section(start: nat, body: nat, end: nat)

  /** The search for a section in the lower-cased text `t`, from position `i` on. */
  function FindSectionFrom(t: string, heads: seq<string>, stops: seq<string>, i: nat): (r: Option<Section>)
    requires i <= |t|
    ensures r.Some? ==> i <= r.value.start < r.value.body <= r.value.end <= |t|
    ensures r.Some? ==> forall q :: i <= q < r.value.start ==> HeaderAt(t, q, heads).None?
    ensures r.Some? ==> HeaderAt(t, r.value.start, heads).Some?
                        && r.value.body == HeaderAt(t, r.value.start, heads).value
                                           + Run(t, HeaderAt(t, r.value.start, heads).value, HeaderSeparator)
                        && r.value.end == BodyEnd(t, r.value.body, stops)
    ensures r.None? ==> forall q :: i <= q <= |t| ==> HeaderAt(t, q, heads).None?
    decreases |t| - i
  {
    match HeaderAt(t, i, heads)
    case Some(h) =>
      var body := h + Run(t, h, HeaderSeparator);
      Some(Section(i, body, BodyEnd(t, body, stops)))
    case None =>
      if i == |t| then None
      else
        var r := FindSectionFrom(t, heads, stops, i + 1);
        assert HeaderAt(t, i, heads).None?;
        r
  }

  /** `s.match(/(?:heads)[\s:]+([^]*?)(?=\n(?:stops)|$)/i)`, heads and stops in lower
      case; the captured text is `s[body..end]`. Lower-casing keeps every index
      and every `[\s:]` character, so the search runs on `Lower(s)`. The
      separator run is taken whole because the lazy capture after it always
      succeeds (at the latest at the end of the text). */
  function FindSection(s: string, heads: seq<string>, stops: seq<string>): (r: Option<Section>)
    ensures r.Some? ==> r.value.start < r.value.body <= r.value.end <= |s|
  {
    FindSectionFrom(Lower(s), heads, stops, 0)
  }

  // ---------------------------------------------------------------------
  // Splitting: `str.split(/\n(?=...)/i)` and `str.split('\n')`

  /** The three splitters of the parser. */
  datatype Splitter =
    | Lines             // '\n'
    | ExperienceEntries // /\n(?=\d{4}|[A-Z][a-z]+\s+\d{4}|(?:Jan|Feb|...|Dec))/i
    | EducationEntries  // /\n(?=\d{4}|Bachelor|Master|PhD|B\.|M\.|Doctor)/i

  const MonthAbbreviations: seq<string> :=
    ["jan", "feb", "mar", "apr", "may", "jun", "jul", "aug", "sep", "oct", "nov", "dec"]

  const DegreeWords: seq<string> := ["bachelor", "master", "phd", "b.", "m.", "doctor"]

  /** `\d{4}` at `p`. */
  predicate FourDigitsAt(s: string, p: nat) {
    p + 4 <= |s| && AllIn(s[p..p + 4], Digit)
  }

  /** `[A-Z][a-z]+\s+\d{4}` under the `i` flag at `p`. Both runs are taken whole:
      the letters must be followed by white space and the white space by a digit,
      so a shorter run never leads to a match. */
  predicate MonthYearAt(s: string, p: nat)
    requires p <= |s|
  {
    var letters := Run(s, p, Letter);
    letters >= 2 && Run(s, p + letters, Blank) >= 1
    && FourDigitsAt(s, p + letters + Run(s, p + letters, Blank))
  }

  /** One of `words` occurs in `t` at `p`: the alternation `(?:w1|w2|...)`
      inside a lookahead, where only success matters. */
  predicate AnyWordAt(t: string, p: nat, words: seq<string>) {
    exists k :: 0 <= k < |words| && OccursAt(t, words[k], p)
  }

  /** The lookahead of a splitter at `p`. */
  predicate Lookahead(sp: Splitter, s: string, p: nat)
    requires p <= |s|
  {
    match sp
    case Lines => true
    case ExperienceEntries =>
      FourDigitsAt(s, p) || MonthYearAt(s, p) || AnyWordAt(Lower(s), p, MonthAbbreviations)
    case EducationEntries =>
      FourDigitsAt(s, p) || AnyWordAt(Lower(s), p, DegreeWords)
  }

  /** The separator matches at `q`. */
  predicate IsBoundary(sp: Splitter, s: string, q: nat) {
    q < |s| && s[q] == '\n' && Lookahead(sp, s, q + 1)
  }

  /** The pieces of `s[start..]`, where `s[start..q]` holds no boundary. */
  function SplitFrom(sp: Splitter, s: string, start: nat, q: nat): (pieces: seq<string>)
    requires start <= q <= |s|
    ensures |pieces| >= 1
    decreases |s| - q
  {
    if q == |s| then [s[start..]]
    else if IsBoundary(sp, s, q) then [s[start..q]] + SplitFrom(sp, s, q + 1, q + 1)
    else SplitFrom(sp, s, start, q + 1)
  }

  /** `s.split(separator)`: the pieces between the separator's matches. */
  function Split(sp: Splitter, s: string): (pieces: seq<string>)
    ensures |pieces| >= 1
  {
    SplitFrom(sp, s, 0, 0)
  }

  /** The pieces joined back with line breaks. */
  function JoinLines(pieces: seq<string>): string
    decreases |pieces|
  {
    if pieces == [] then ""
    else if |pieces| == 1 then pieces[0]
    else pieces[0] + "\n" + JoinLines(pieces[1..])
  }

  lemma {:induction false} SplitFromJoins(sp: Splitter, s: string, start: nat, q: nat)
    requires start <= q <= |s|
    ensures JoinLines(SplitFrom(sp, s, start, q)) == s[start..]
    decreases |s| - q
  {
    if q < |s| {
      if IsBoundary(sp, s, q) {
        SplitFromJoins(sp, s, q + 1, q + 1);
        var rest := SplitFrom(sp, s, q + 1, q + 1);
        assert SplitFrom(sp, s, start, q) == [s[start..q]] + rest;
        assert s[start..] == s[start..q] + "\n" + s[q + 1..];
      } else {
        SplitFromJoins(sp, s, start, q + 1);
      }
    }
  }

  lemma {:induction false} SplitFromLines(s: string, start: nat, q: nat)
    requires start <= q <= |s|
    requires forall x :: start <= x < q ==> s[x] != '\n'
    ensures forall k :: 0 <= k < |SplitFrom(Lines, s, start, q)| ==> '\n' !in SplitFrom(Lines, s, start, q)[k]
    decreases |s| - q
  {
    var pieces := SplitFrom(Lines, s, start, q);
    if q == |s| {
      assert pieces == [s[start..]];
    } else if IsBoundary(Lines, s, q) {
      SplitFromLines(s, q + 1, q + 1);
      var rest := SplitFrom(Lines, s, q + 1, q + 1);
      assert pieces == [s[start..q]] + rest;
      forall k | 0 <= k < |pieces| ensures '\n' !in pieces[k] {
        if k > 0 {
          assert pieces[k] == rest[k - 1];
        }
      }
    } else {
      SplitFromLines(s, start, q + 1);
    }
  }

  /** `s.split('\n')` leaves no line break inside a piece. */
  lemma SplitLinesNoBreak(s: string)
    ensures forall k :: 0 <= k < |Split(Lines, s)| ==> '\n' !in Split(Lines, s)[k]
  {
    SplitFromLines(s, 0, 0);
  }

  /** Splitting loses nothing: joining the pieces with line breaks gives back
      the text, and every piece is a slice of it. */
  lemma SplitJoins(sp: Splitter, s: string)
    ensures JoinLines(Split(sp, s)) == s
    ensures forall k :: 0 <= k < |Split(sp, s)| ==> IsSliceOf(Split(sp, s)[k], s)
  {
    SplitFromJoins(sp, s, 0, 0);
    var pieces := Split(sp, s);
    SplitCuts(sp, s);
    forall k | 0 <= k < |pieces| ensures IsSliceOf(pieces[k], s) {
      assert PieceCut(sp, s, 0, pieces, k);
      var p := PieceStart(pieces, k);
      SliceAt(s, p, p + |pieces[k]|);
    }
  }
  /** Where piece `k` starts in the text it was split from: after the earlier
      pieces and the line break that ended each of them. */
  function PieceStart(pieces: seq<string>, k: nat): nat
    requires k <= |pieces|
    decreases k
  {
    if k == 0 then 0 else PieceStart(pieces, k - 1) + |pieces[k - 1]| + 1
  }

  lemma {:induction false} PieceStartCons(a: string, rest: seq<string>, k: nat)
    requires 1 <= k <= |rest| + 1
    ensures PieceStart([a] + rest, k) == |a| + 1 + PieceStart(rest, k - 1)
    decreases k
  {
    if k > 1 {
      PieceStartCons(a, rest, k - 1);
      assert ([a] + rest)[k - 1] == rest[k - 2];
    }
  }

  /** `piece` is the text of `s` at `p`, and no boundary lies inside it. */
  ghost predicate PieceAt(sp: Splitter, s: string, p: nat, piece: string) {
    p + |piece| <= |s| && s[p..p + |piece|] == piece
    && forall x :: p <= x < p + |piece| ==> !IsBoundary(sp, s, x)
  }

  /** `piece` sits at `p` in `s`, and unless it is the last piece a boundary
      follows it. */
  ghost predicate CutAt(sp: Splitter, s: string, p: nat, piece: string, last: bool) {
    PieceAt(sp, s, p, piece) && (!last ==> IsBoundary(sp, s, p + |piece|))
  }

  /** Piece `k` sits at its place in `s` (offset by `start`), and unless it is
      the last piece a boundary follows it. */
  ghost predicate PieceCut(sp: Splitter, s: string, start: nat, pieces: seq<string>, k: nat)
    requires k < |pieces|
  {
    CutAt(sp, s, start + PieceStart(pieces, k), pieces[k], k + 1 == |pieces|)
  }

  /** `pieces` is `s[start..]` cut at every boundary and nowhere else: each
      piece runs from just after the previous cut to the next boundary, and the
      last one runs to the end of `s`. */
  ghost predicate CutsAt(sp: Splitter, s: string, start: nat, pieces: seq<string>) {
    |pieces| >= 1
    && (forall k :: 0 <= k < |pieces| ==> PieceCut(sp, s, start, pieces, k))
    && start + PieceStart(pieces, |pieces| - 1) + |pieces[|pieces| - 1]| == |s|
  }

  lemma {:induction false} SplitFromCuts(sp: Splitter, s: string, start: nat, q: nat)
    requires start <= q <= |s|
    requires forall x :: start <= x < q ==> !IsBoundary(sp, s, x)
    ensures CutsAt(sp, s, start, SplitFrom(sp, s, start, q))
    decreases |s| - q
  {
    if q == |s| {
      var pieces := SplitFrom(sp, s, start, q);
      assert pieces == [s[start..]];
      assert PieceCut(sp, s, start, pieces, 0);
    } else if IsBoundary(sp, s, q) {
      SplitFromCuts(sp, s, q + 1, q + 1);
      CutsCons(sp, s, start, q, SplitFrom(sp, s, q + 1, q + 1));
    } else {
      SplitFromCuts(sp, s, start, q + 1);
    }
  }

  /** A boundary at `q` after a boundary-free stretch from `start` puts the
      piece `s[start..q]` in front of the cuts of `s[q + 1..]`. */
  lemma CutsCons(sp: Splitter, s: string, start: nat, q: nat, rest: seq<string>)
    requires start <= q < |s| && IsBoundary(sp, s, q)
    requires forall x :: start <= x < q ==> !IsBoundary(sp, s, x)
    requires CutsAt(sp, s, q + 1, rest)
    ensures CutsAt(sp, s, start, [s[start..q]] + rest)
  {
    var first := s[start..q];
    var pieces := [first] + rest;
    forall k | 0 <= k < |pieces| ensures PieceCut(sp, s, start, pieces, k) {
      if k == 0 {
        FirstCut(sp, s, start, q);
        assert pieces[0] == first && PieceStart(pieces, 0) == 0 && |pieces| > 1;
      } else {
        PieceCutCons(sp, s, start, q, rest, k);
      }
    }
    PieceStartCons(first, rest, |pieces| - 1);
    assert pieces[|pieces| - 1] == rest[|rest| - 1];
  }

  /** The stretch before the first boundary is a piece followed by a cut. */
  lemma FirstCut(sp: Splitter, s: string, start: nat, q: nat)
    requires start <= q < |s| && IsBoundary(sp, s, q)
    requires forall x :: start <= x < q ==> !IsBoundary(sp, s, x)
    ensures CutAt(sp, s, start, s[start..q], false)
  {
    assert start + |s[start..q]| == q;
  }

  lemma PieceCutCons(sp: Splitter, s: string, start: nat, q: nat, rest: seq<string>, k: nat)
    requires start <= q && 1 <= k <= |rest|
    requires PieceCut(sp, s, q + 1, rest, k - 1)
    ensures PieceCut(sp, s, start, [s[start..q]] + rest, k)
  {
    var first := s[start..q];
    var pieces := [first] + rest;
    PieceStartCons(first, rest, k);
    assert pieces[k] == rest[k - 1];
    assert start + PieceStart(pieces, k) == q + 1 + PieceStart(rest, k - 1);
  }

  /** `s.split(separator)` cuts `s` at every match of the separator and
      nowhere else. */
  lemma SplitCuts(sp: Splitter, s: string)
    ensures CutsAt(sp, s, 0, Split(sp, s))
  {
    SplitFromCuts(sp, s, 0, 0);
  }
}
