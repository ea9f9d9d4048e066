/** Inlining of arguments into a statement for Spark, which takes no bind
    parameters: each placeholder is replaced in the whole text, the highest number
    first. */
module SparkSql {
  import opened Wrappers
  import opened Decimal

  predicate StartsWith(s: string, p: string) {
    |p| <= |s| && s[..|p|] == p
  }

  /** strings.ReplaceAll: every occurrence, from the left, none overlapping. */
  function ReplaceAll(s: string, pat: string, sub: string): string
    requires pat != []
  {
    if s == [] then []
    else if StartsWith(s, pat) then sub + ReplaceAll(s[|pat|..], pat, sub)
    else [s[0]] + ReplaceAll(s[1..], pat, sub)
  }

  /** The placeholder of the i-th argument. */
  function Placeholder(i: nat): string {
    "$" + Digits(i)
  }

  /** An argument; a float carries the text it is written as, any other value the
      text it prints as. */
  datatype Arg = NullArg | IntArg(i: int) | FloatArg(text: string) | TextArg(s: string) | OtherArg(shown: string)

  function Quote(s: string): string {
    "'" + ReplaceAll(s, "'", "''") + "'"
  }

  function SparkLiteral(a: Arg): string {
    match a
    case NullArg => "NULL"
    case IntArg(i) => Itoa(i)
    case FloatArg(text) => text
    case TextArg(s) => Quote(s)
    case OtherArg(shown) => Quote(shown)
  }

  /** The passes for the arguments hi, hi - 1, ..., lo, in that order. */
  function Passes(s: string, lits: seq<string>, hi: nat, lo: nat): string
    requires 1 <= lo && hi <= |lits|
    decreases hi
  {
    if hi < lo then s else Passes(ReplaceAll(s, Placeholder(hi), lits[hi - 1]), lits, hi - 1, lo)
  }

  function Literals(args: seq<Arg>): (r: seq<string>)
    ensures |r| == |args| && forall k :: 0 <= k < |args| ==> r[k] == SparkLiteral(args[k])
  {
    seq(|args|, k requires 0 <= k < |args| => SparkLiteral(args[k]))
  }

  /** The loop: high to low, so that $1 does not match inside $10. */
  method InlineParams(sql: string, args: seq<Arg>) returns (r: string)
    ensures r == Passes(sql, Literals(args), |args|, 1)
    ensures (forall k :: 0 <= k < |args| ==> Printable(args[k])) ==>
              exists lits :: AllMean(lits, args) && r == Passes(sql, lits, |args|, 1)
  {
    LiteralsMean(args);
    r := sql;
    var i := |args|;
    while i >= 1
      invariant 0 <= i <= |args|
      invariant Passes(sql, Literals(args), |args|, 1) == Passes(r, Literals(args), i, 1)
    {
      r := ReplaceAll(r, Placeholder(i), SparkLiteral(args[i - 1]));
      i := i - 1;
    }
  }

  // Statements as text and placeholders.

  datatype Piece = Text(s: string) | Param(k: nat)

  /** A statement whose every '$' starts a placeholder of one of n arguments, and no
      text that follows one starts with a digit. */
  ghost predicate WellFormed(ps: seq<Piece>, n: nat) {
    forall j :: 0 <= j < |ps| ==> PieceFits(ps, j, n)
  }

  ghost predicate PieceFits(ps: seq<Piece>, j: nat, n: nat)
    requires j < |ps|
  {
    if ps[j].Text? then ps[j].s != [] && '$' !in ps[j].s
    else 1 <= ps[j].k <= n
         && (j + 1 < |ps| && ps[j + 1].Text? ==> ps[j + 1].s != [] && !IsDigit(ps[j + 1].s[0]))
  }

  function Render(ps: seq<Piece>): string {
    if ps == [] then []
    else (match ps[0] case Text(s) => s case Param(k) => Placeholder(k)) + Render(ps[1..])
  }

  /** Every placeholder replaced at once by its literal. */
  function Simultaneous(ps: seq<Piece>, lits: seq<string>): string {
    if ps == [] then []
    else (match ps[0] case Text(s) => s case Param(k) => if 1 <= k <= |lits| then lits[k - 1] else [])
         + Simultaneous(ps[1..], lits)
  }

  /** The text after a placeholder when the pass for argument i comes: placeholders
      above i are literals by then. */
  function Following(ps: seq<Piece>, lits: seq<string>, i: nat): string {
    if ps == [] then []
    else
      match ps[0]
      case Text(s) => s
      case Param(k) => if i < k <= |lits| then lits[k - 1] + Following(ps[1..], lits, i) else "$"
  }

  /** With the literals that by then follow it, the j-th piece's placeholder reads as
      that of argument i, which is higher. */
  ghost predicate ReadsAs(ps: seq<Piece>, lits: seq<string>, j: nat, i: nat)
    requires j < |ps|
  {
    && ps[j].Param? && ps[j].k < i <= |lits|
    && StartsWith(Placeholder(ps[j].k) + Following(ps[j + 1..], lits, i), Placeholder(i))
  }

  /** No placeholder is completed to another by the literals of those next to it. */
  ghost predicate Apart(ps: seq<Piece>, lits: seq<string>) {
    forall j: nat, i: nat :: j < |ps| ==> !ReadsAs(ps, lits, j, i)
  }

  // Replacing in parts.

  /** No occurrence of the pattern that starts in a reaches into b. */
  ghost predicate NoStraddle(a: string, b: string, pat: string) {
    forall p :: 0 <= p < |a| && |a| - p < |pat| ==> !StartsWith((a + b)[p..], pat)
  }

  lemma {:induction false} ReplaceAllParts(a: string, b: string, pat: string, sub: string)
    requires pat != [] && NoStraddle(a, b, pat)
    ensures ReplaceAll(a + b, pat, sub) == ReplaceAll(a, pat, sub) + ReplaceAll(b, pat, sub)
    decreases |a|
  {
    if a == [] {
      assert a + b == b;
    } else if StartsWith(a + b, pat) {
      assert (a + b)[0..] == a + b;
      assert |pat| <= |a|;
      assert (a + b)[..|pat|] == a[..|pat|];
      assert (a + b)[|pat|..] == a[|pat|..] + b;
      NoStraddleTail(a, b, pat, |pat|);
      ReplaceAllParts(a[|pat|..], b, pat, sub);
    } else {
      assert |pat| <= |a| ==> (a + b)[..|pat|] == a[..|pat|];
      assert (a + b)[1..] == a[1..] + b;
      NoStraddleTail(a, b, pat, 1);
      ReplaceAllParts(a[1..], b, pat, sub);
    }
  }

  lemma NoStraddleTail(a: string, b: string, pat: string, k: nat)
    requires NoStraddle(a, b, pat) && k <= |a|
    ensures NoStraddle(a[k..], b, pat)
  {
    forall p | 0 <= p < |a[k..]| && |a[k..]| - p < |pat| ensures !StartsWith((a[k..] + b)[p..], pat) {
      assert (a[k..] + b)[p..] == (a + b)[k + p..];
    }
  }

  /** Text without a '$' has no placeholder to replace. */
  lemma {:induction false} ReplaceAllAbsent(s: string, pat: string, sub: string)
    requires pat != [] && pat[0] !in s
    ensures ReplaceAll(s, pat, sub) == s
  {
    if s != [] {
      ReplaceAllAbsent(s[1..], pat, sub);
    }
  }

  /** The q-th character of an occurrence is the q-th of the pattern. */
  lemma StartsAt(s: string, p: nat, pat: string, q: nat)
    requires p <= |s| && q < |pat|
    ensures StartsWith(s[p..], pat) ==> p + q < |s| && s[p + q] == pat[q]
  {
    if StartsWith(s[p..], pat) {
      assert s[p..][..|pat|][q] == s[p + q];
    }
  }

  /** A placeholder is a '$' and digits. */
  lemma PlaceholderShape(i: nat)
    ensures var p := Placeholder(i); p[0] == '$' && |p| >= 2 && AllDigits(p[1..]) && p[1..] == Digits(i)
    ensures var p := Placeholder(i); forall q :: 1 <= q < |p| ==> IsDigit(p[q])
  {
    DigitsValue(i);
    var p := Placeholder(i);
    forall q | 1 <= q < |p| ensures IsDigit(p[q]) {
      assert p[q] == p[1..][q - 1];
    }
  }

  // What a pass does to one literal.

  /** Literals never start with '$', and one that contains it is quoted. */
  ghost predicate LiteralShape(s: string) {
    s != [] && s[0] != '$' && ('$' in s ==> s[0] == '\'' && s[|s| - 1] == '\'')
  }

  /** What FormatFloat writes: digits, signs, a point, an exponent, NaN or Inf. */
  ghost predicate FloatText(s: string) {
    s != [] && forall c :: c in s ==> IsDigit(c) || c in ".+-eNaInf"
  }

  ghost predicate Printable(a: Arg) {
    a.FloatArg? ==> FloatText(a.text)
  }

  lemma LiteralsHaveShape(a: Arg)
    requires Printable(a)
    ensures LiteralShape(SparkLiteral(a))
  {
    var s := SparkLiteral(a);
    if a.IntArg? {
      ItoaAvoids(a.i, '$');
      DigitsValue(if a.i < 0 then -a.i else a.i);
    }
    assert s[0] in s;
  }

  lemma LastOf(pat: string)
    requires pat != []
    ensures pat[|pat| - 1] in pat
  {}

  lemma {:induction false} KeepsLast(s: string, pat: string, sub: string)
    requires pat != [] && s != [] && s[|s| - 1] !in pat
    ensures var r := ReplaceAll(s, pat, sub); r != [] && r[|r| - 1] == s[|s| - 1]
    decreases |s|
  {
    if StartsWith(s, pat) {
      LastOf(pat);
      assert |pat| < |s|;
      KeepsLast(s[|pat|..], pat, sub);
    } else if |s| > 1 {
      KeepsLast(s[1..], pat, sub);
    }
  }

  lemma KeepsFirst(s: string, pat: string, sub: string)
    requires pat != [] && s != [] && s[0] != pat[0]
    ensures var r := ReplaceAll(s, pat, sub); r != [] && r[0] == s[0]
  {}

  lemma PassKeepsShape(s: string, j: nat, sub: string)
    requires LiteralShape(s) && LiteralShape(sub)
    ensures LiteralShape(ReplaceAll(s, Placeholder(j), sub))
    ensures ReplaceAll(s, Placeholder(j), sub)[0] == s[0]
  {
    PlaceholderShape(j);
    KeepsFirst(s, Placeholder(j), sub);
    if '$' in s {
      KeepsLast(s, Placeholder(j), sub);
      assert !StartsWith(s, Placeholder(j)) by {
        assert Placeholder(j)[0] == '$';
      }
    } else {
      ReplaceAllAbsent(s, Placeholder(j), sub);
    }
  }

  ghost predicate Occurs(s: string, pat: string) {
    exists p :: 0 <= p < |s| && StartsWith(s[p..], pat)
  }

  /** x is like s up to a position where s has a '$' and x has something else. */
  ghost predicate Departs(x: string, s: string) {
    exists q :: 0 <= q < |x| && q < |s| && x[..q] == s[..q] && s[q] == '$' && x[q] != '$'
  }

  lemma DepartsAt(x: string, s: string, q: nat)
    requires q < |x| && q < |s| && x[..q] == s[..q] && s[q] == '$' && x[q] != '$'
    ensures Departs(x, s) && x != s
  {}

  lemma DepartsAfter(a: string, x: string, s: string)
    requires Departs(x, s)
    ensures Departs(a + x, a + s)
  {
    var q :| 0 <= q < |x| && q < |s| && x[..q] == s[..q] && s[q] == '$' && x[q] != '$';
    assert (a + x)[..|a| + q] == a + x[..q] && (a + s)[..|a| + q] == a + s[..q];
    DepartsAt(a + x, a + s, |a| + q);
  }

  lemma DepartsBefore(x: string, s: string, y: string, t: string)
    requires Departs(x, s)
    ensures Departs(x + y, s + t)
  {
    var q :| 0 <= q < |x| && q < |s| && x[..q] == s[..q] && s[q] == '$' && x[q] != '$';
    assert (x + y)[..q] == x[..q] && (s + t)[..q] == s[..q];
    DepartsAt(x + y, s + t, q);
  }

  lemma DepartsThenDeparts(x: string, y: string, s: string)
    requires Departs(y, s) && Departs(x, y)
    ensures Departs(x, s)
  {
    var q :| 0 <= q < |y| && q < |s| && y[..q] == s[..q] && s[q] == '$' && y[q] != '$';
    var r :| 0 <= r < |x| && r < |y| && x[..r] == y[..r] && y[r] == '$' && x[r] != '$';
    if r < q {
      assert y[r] == y[..q][r] == s[..q][r] == s[r];
      assert x[..r] == s[..r] by {
        assert y[..r] == y[..q][..r] && s[..r] == s[..q][..r];
      }
      DepartsAt(x, s, r);
    } else {
      assert q < r;
      assert x[q] == x[..r][q] == y[..r][q] == y[q];
      assert x[..q] == s[..q] by {
        assert x[..q] == x[..r][..q] && y[..q] == y[..r][..q];
      }
      DepartsAt(x, s, q);
    }
  }

  /** A pass leaves a text alone or departs from it, according to whether its
      placeholder occurs. */
  lemma {:induction false} PassDeparts(s: string, pat: string, sub: string)
    requires pat != [] && pat[0] == '$' && sub != [] && sub[0] != '$'
    ensures Occurs(s, pat) ==> Departs(ReplaceAll(s, pat, sub), s)
    ensures !Occurs(s, pat) ==> ReplaceAll(s, pat, sub) == s
  {
    if s == [] {
    } else if StartsWith(s, pat) {
      assert s[0..] == s;
      assert s[0] == pat[0];
      DepartsAt(ReplaceAll(s, pat, sub), s, 0);
    } else {
      PassDeparts(s[1..], pat, sub);
      OccursTail(s, pat);
      assert s == [s[0]] + s[1..];
      if Occurs(s[1..], pat) {
        DepartsAfter([s[0]], ReplaceAll(s[1..], pat, sub), s[1..]);
      }
    }
  }

  lemma OccursTail(s: string, pat: string)
    requires s != [] && !StartsWith(s, pat)
    ensures Occurs(s, pat) <==> Occurs(s[1..], pat)
  {
    assert s[0..] == s;
    forall p | 0 <= p < |s[1..]| ensures s[1..][p..] == s[p + 1..] {}
    if Occurs(s, pat) {
      var p :| 0 <= p < |s| && StartsWith(s[p..], pat);
      assert s[1..][p - 1..] == s[p..];
    }
  }

  /** No lower-numbered placeholder occurs in the k-th literal. */
  ghost predicate Inert(lit: string, k: nat) {
    forall j :: 1 <= j < k ==> !Occurs(lit, Placeholder(j))
  }

  ghost predicate AllShaped(lits: seq<string>) {
    forall k :: 0 <= k < |lits| ==> LiteralShape(lits[k])
  }

  /** The passes after its own leave a literal alone exactly when it is inert, and
      otherwise depart from it. */
  lemma {:induction false} PassesDepart(s: string, lits: seq<string>, hi: nat)
    requires hi <= |lits| && AllShaped(lits)
    ensures Inert(s, hi + 1) ==> Passes(s, lits, hi, 1) == s
    ensures !Inert(s, hi + 1) ==> Departs(Passes(s, lits, hi, 1), s)
    decreases hi
  {
    if hi > 0 {
      var t := ReplaceAll(s, Placeholder(hi), lits[hi - 1]);
      PlaceholderShape(hi);
      PassDeparts(s, Placeholder(hi), lits[hi - 1]);
      PassesDepart(t, lits, hi - 1);
      if Occurs(s, Placeholder(hi)) {
        if !Inert(t, hi) {
          DepartsThenDeparts(Passes(t, lits, hi - 1, 1), t, s);
        }
      } else {
        assert Inert(s, hi + 1) <==> Inert(s, hi);
      }
    }
  }

  // What a pass does to a statement.

  /** A piece once the passes for the arguments n, ..., i are done. */
  function StagePiece(p: Piece, lits: seq<string>, i: nat): string
    requires 1 <= i
  {
    match p
    case Text(s) => s
    case Param(k) => if i <= k <= |lits| then Passes(lits[k - 1], lits, k - 1, i) else Placeholder(k)
  }

  function Stage(ps: seq<Piece>, lits: seq<string>, i: nat): string
    requires 1 <= i
  {
    if ps == [] then [] else StagePiece(ps[0], lits, i) + Stage(ps[1..], lits, i)
  }

  lemma {:induction false} PassesKeepShape(s: string, lits: seq<string>, hi: nat, lo: nat)
    requires 1 <= lo && hi <= |lits| && AllShaped(lits) && LiteralShape(s)
    ensures LiteralShape(Passes(s, lits, hi, lo)) && Passes(s, lits, hi, lo)[0] == s[0]
    decreases hi
  {
    if hi >= lo {
      PassKeepsShape(s, hi, lits[hi - 1]);
      PassesKeepShape(ReplaceAll(s, Placeholder(hi), lits[hi - 1]), lits, hi - 1, lo);
    }
  }

  /** One more pass at the low end. */
  lemma {:induction false} PassesExtend(s: string, lits: seq<string>, hi: nat, lo: nat)
    requires 1 <= lo <= hi <= |lits|
    ensures Passes(s, lits, hi, lo) == ReplaceAll(Passes(s, lits, hi, lo + 1), Placeholder(lo), lits[lo - 1])
    decreases hi
  {
    if hi > lo {
      PassesExtend(ReplaceAll(s, Placeholder(hi), lits[hi - 1]), lits, hi - 1, lo);
    } else {
      var t := ReplaceAll(s, Placeholder(hi), lits[hi - 1]);
      assert Passes(t, lits, hi - 1, lo) == t;
      assert Passes(s, lits, hi, lo + 1) == s;
    }
  }

  /** A literal's end keeps placeholders from reaching past it. */
  lemma LiteralDoesNotStraddle(a: string, b: string, i: nat)
    requires LiteralShape(a)
    ensures NoStraddle(a, b, Placeholder(i))
  {
    var pat, s := Placeholder(i), a + b;
    PlaceholderShape(i);
    forall p | 0 <= p < |a| && |a| - p < |pat| ensures !StartsWith(s[p..], pat) {
      StartsAt(s, p, pat, 0);
      StartsAt(s, p, pat, |a| - 1 - p);
      assert s[p] == a[p] && s[|a| - 1] == a[|a| - 1];
    }
  }

  lemma TextDoesNotStraddle(a: string, b: string, i: nat)
    requires '$' !in a
    ensures NoStraddle(a, b, Placeholder(i))
  {
    var pat := Placeholder(i);
    forall p | 0 <= p < |a| && |a| - p < |pat| ensures !StartsWith((a + b)[p..], pat) {
      StartsAt(a + b, p, pat, 0);
      assert (a + b)[p] == a[p];
    }
  }

  /** A placeholder that does not read on as a longer one keeps to itself. */
  lemma UnreadDoesNotStraddle(k: nat, b: string, i: nat)
    requires |Placeholder(k)| < |Placeholder(i)| ==> !StartsWith(Placeholder(k) + b, Placeholder(i))
    ensures NoStraddle(Placeholder(k), b, Placeholder(i))
  {
    var a, pat := Placeholder(k), Placeholder(i);
    var s := a + b;
    PlaceholderShape(k);
    PlaceholderShape(i);
    assert s[0..] == s;
    forall p | 0 <= p < |a| && |a| - p < |pat| ensures !StartsWith(s[p..], pat) {
      StartsAt(s, p, pat, 0);
      assert s[p] == a[p];
    }
  }

  /** A placeholder not followed by a digit is not taken for a longer one. */
  lemma PlaceholderDoesNotStraddle(k: nat, b: string, i: nat)
    requires b == [] || !IsDigit(b[0])
    ensures NoStraddle(Placeholder(k), b, Placeholder(i))
  {
    var a, pat := Placeholder(k), Placeholder(i);
    PlaceholderShape(i);
    if |a| < |pat| {
      StartsAt(a + b, 0, pat, |a|);
      assert (a + b)[0..] == a + b;
      assert b != [] ==> (a + b)[|a|] == b[0];
    }
    UnreadDoesNotStraddle(k, b, i);
  }

  lemma {:induction false} ValueOfPrefix(s: string, k: nat)
    requires AllDigits(s) && k <= |s|
    ensures AllDigits(s[..k]) && Value(s[..k]) <= Value(s)
    decreases |s| - k
  {
    if k < |s| {
      ValueOfPrefix(s, k + 1);
      assert s[..k + 1][..k] == s[..k];
    } else {
      assert s[..k] == s;
    }
  }

  lemma SameHead(c: char, x: string, y: string)
    ensures StartsWith([c] + x, [c] + y) <==> StartsWith(x, y)
  {
    if |y| <= |x| {
      assert ([c] + x)[..|y| + 1] == [c] + x[..|y|];
      assert [c] + x[..|y|] == [c] + y <==> x[..|y|] == y by {
        assert ([c] + x[..|y|])[1..] == x[..|y|] && ([c] + y)[1..] == y;
      }
    }
  }

  /** The numeral of a number starts with no numeral of a greater one. */
  lemma NotAPrefix(k: nat, i: nat)
    requires k < i
    ensures !StartsWith(Digits(k), Digits(i))
  {
    DigitsValue(k);
    DigitsValue(i);
    forall l | 0 <= l <= |Digits(k)| ensures Value(Digits(k)[..l]) <= k {
      ValueOfPrefix(Digits(k), l);
    }
  }

  /** The pass for argument i leaves lower-numbered placeholders alone. */
  lemma LowerPlaceholder(k: nat, i: nat, sub: string)
    requires k < i
    ensures ReplaceAll(Placeholder(k), Placeholder(i), sub) == Placeholder(k)
  {
    var a, pat := Placeholder(k), Placeholder(i);
    PlaceholderShape(k);
    PlaceholderShape(i);
    NotAPrefix(k, i);
    SameHead('$', Digits(k), Digits(i));
    assert '$' !in a[1..];
    ReplaceAllAbsent(a[1..], pat, sub);
  }

  lemma OwnPlaceholder(i: nat, sub: string)
    ensures ReplaceAll(Placeholder(i), Placeholder(i), sub) == sub
  {
    var a := Placeholder(i);
    assert a[..|a|] == a && a[|a|..] == [];
    assert ReplaceAll(a[|a|..], a, sub) == [];
  }

  /** The pass for argument i takes each piece from one stage to the next. */
  lemma PassOverPiece(p: Piece, lits: seq<string>, i: nat)
    requires 1 <= i <= |lits| && AllShaped(lits)
    requires if p.Text? then '$' !in p.s else 1 <= p.k <= |lits|
    ensures ReplaceAll(StagePiece(p, lits, i + 1), Placeholder(i), lits[i - 1]) == StagePiece(p, lits, i)
  {
    hide StartsWith, AllDigits, Digits, ReplaceAll, AllShaped;
    match p
    case Text(s) =>
      PlaceholderShape(i);
      ReplaceAllAbsent(s, Placeholder(i), lits[i - 1]);
    case Param(k) =>
      if k < i {
        LowerPlaceholder(k, i, lits[i - 1]);
      } else if k == i {
        OwnPlaceholder(i, lits[i - 1]);
        assert Passes(lits[i - 1], lits, i - 1, i) == lits[i - 1];
      } else {
        PassesExtend(lits[k - 1], lits, k - 1, i);
      }
  }

  lemma StartsAcross(a: string, b: string, pat: string)
    requires |a| <= |pat|
    ensures StartsWith(a + b, pat) <==> pat[..|a|] == a && StartsWith(b, pat[|a|..])
  {
    if |pat| <= |a + b| {
      assert (a + b)[..|pat|] == a + b[..|pat| - |a|];
      assert pat == pat[..|a|] + pat[|a|..];
    }
  }

  lemma SameFirst(s: string, d: string)
    ensures StartsWith(s, d) && d != [] ==> s != [] && s[0] == d[0]
  {
    if StartsWith(s, d) && d != [] {
      assert s[..|d|][0] == s[0];
    }
  }

  /** A literal with a digit in front contains no placeholder, so the passes leave it
      as it is; any other stops the digits before it. */
  lemma LiteralAhead(lit: string, lits: seq<string>, k: nat, i: nat, d: string, rest: string)
    requires 1 <= i < k <= |lits| && AllShaped(lits) && LiteralShape(lit) && AllDigits(d)
    ensures var now := Passes(lit, lits, k - 1, i + 1);
            StartsWith(now + rest, d) ==> d == [] || now == lit
  {
    var now := Passes(lit, lits, k - 1, i + 1);
    PassesKeepShape(lit, lits, k - 1, i + 1);
    if '$' in lit {
      assert (now + rest)[0] == '\'' && !IsDigit('\'');
      SameFirst(now + rest, d);
    } else {
      PassesSkip(lit, lits, k - 1, i + 1);
    }
  }

  lemma {:induction false} PassesSkip(s: string, lits: seq<string>, hi: nat, lo: nat)
    requires 1 <= lo && hi <= |lits| && '$' !in s
    ensures Passes(s, lits, hi, lo) == s
    decreases hi
  {
    if hi >= lo {
      ReplaceAllAbsent(s, Placeholder(hi), lits[hi - 1]);
      PassesSkip(s, lits, hi - 1, lo);
    }
  }

  /** The digits a placeholder meets when its pass comes are those of the literals that
      follow it. */
  lemma {:induction false} DigitsAhead(ps: seq<Piece>, lits: seq<string>, i: nat, d: string)
    requires 1 <= i <= |lits| && AllShaped(lits) && WellFormed(ps, |lits|) && AllDigits(d)
    requires ps != [] && ps[0].Text? ==> ps[0].s != [] && !IsDigit(ps[0].s[0])
    requires StartsWith(Stage(ps, lits, i + 1), d)
    ensures StartsWith(Following(ps, lits, i), d)
    decreases |ps|, 1
  {
    var stage := Stage(ps, lits, i + 1);
    if d != [] {
      SameFirst(stage, d);
      assert IsDigit(d[0]);
      var rest := Stage(ps[1..], lits, i + 1);
      WellFormedTail(ps, |lits|);
      if ps[0].Param? && i < ps[0].k {
        LiteralStep(ps, lits, i, d);
      }
    }
  }

  lemma {:induction false} LiteralStep(ps: seq<Piece>, lits: seq<string>, i: nat, d: string)
    requires 1 <= i <= |lits| && AllShaped(lits) && WellFormed(ps, |lits|) && AllDigits(d) && d != []
    requires ps != [] && ps[0].Param? && i < ps[0].k <= |lits|
    requires StartsWith(Stage(ps, lits, i + 1), d)
    ensures StartsWith(Following(ps, lits, i), d)
    decreases |ps|, 0
  {
    hide ReplaceAll, Passes, Placeholder;
    var k := ps[0].k;
    var lit, rest := lits[k - 1], Stage(ps[1..], lits, i + 1);
    WellFormedTail(ps, |lits|);
    assert |ps| > 1 ==> ps[1..][0] == ps[1];
    LiteralAhead(lit, lits, k, i, d, rest);
    assert Stage(ps, lits, i + 1) == lit + rest;
    if |d| <= |lit| {
      assert (lit + rest)[..|d|] == lit[..|d|];
      assert (lit + Following(ps[1..], lits, i))[..|d|] == lit[..|d|];
    } else {
      StartsAcross(lit, rest, d);
      DigitsAhead(ps[1..], lits, i, d[|lit|..]);
      StartsAcross(lit, Following(ps[1..], lits, i), d);
    }
  }

  /** A placeholder lower than the pass's is not taken for it. */
  lemma NotReadAs(ps: seq<Piece>, lits: seq<string>, i: nat)
    requires ps != [] && 1 <= i <= |lits| && AllShaped(lits) && WellFormed(ps, |lits|) && Apart(ps, lits)
    requires ps[0].Param? && ps[0].k < i && |Placeholder(ps[0].k)| < |Placeholder(i)|
    ensures !StartsWith(Placeholder(ps[0].k) + Stage(ps[1..], lits, i + 1), Placeholder(i))
  {
    var a, pat, rest := Placeholder(ps[0].k), Placeholder(i), Stage(ps[1..], lits, i + 1);
    PlaceholderShape(i);
    WellFormedTail(ps, |lits|);
    assert |ps| > 1 ==> ps[1..][0] == ps[1];
    assert !ReadsAs(ps, lits, 0, i);
    StartsAcross(a, rest, pat);
    StartsAcross(a, Following(ps[1..], lits, i), pat);
    assert AllDigits(pat[|a|..]);
    if StartsWith(rest, pat[|a|..]) {
      DigitsAhead(ps[1..], lits, i, pat[|a|..]);
    }
  }

  lemma PieceDoesNotStraddle(ps: seq<Piece>, lits: seq<string>, i: nat)
    requires ps != [] && 1 <= i <= |lits| && AllShaped(lits) && WellFormed(ps, |lits|) && Apart(ps, lits)
    ensures NoStraddle(StagePiece(ps[0], lits, i + 1), Stage(ps[1..], lits, i + 1), Placeholder(i))
  {
    var rest := Stage(ps[1..], lits, i + 1);
    WellFormedTail(ps, |lits|);
    match ps[0]
    case Text(s) =>
      TextDoesNotStraddle(s, rest, i);
    case Param(k) =>
      if k > i {
        PassesKeepShape(lits[k - 1], lits, k - 1, i + 1);
        LiteralDoesNotStraddle(Passes(lits[k - 1], lits, k - 1, i + 1), rest, i);
      } else {
        if k < i && |Placeholder(k)| < |Placeholder(i)| {
          NotReadAs(ps, lits, i);
        }
        UnreadDoesNotStraddle(k, rest, i);
      }
  }

  lemma ApartTail(ps: seq<Piece>, lits: seq<string>)
    requires ps != [] && Apart(ps, lits)
    ensures Apart(ps[1..], lits)
  {
    forall j: nat, i: nat | j < |ps[1..]| ensures !ReadsAs(ps[1..], lits, j, i) {
      assert !ReadsAs(ps, lits, j + 1, i);
      assert ps[1..][j] == ps[j + 1] && ps[1..][j + 1..] == ps[j + 1 + 1..];
    }
  }

  lemma WellFormedTail(ps: seq<Piece>, n: nat)
    requires ps != [] && WellFormed(ps, n)
    ensures WellFormed(ps[1..], n) && PieceFits(ps, 0, n)
  {
    forall j | 0 <= j < |ps[1..]| ensures PieceFits(ps[1..], j, n) {
      assert PieceFits(ps, j + 1, n);
      assert ps[1..][j] == ps[j + 1];
      assert j + 1 < |ps[1..]| ==> ps[1..][j + 1] == ps[j + 2];
    }
  }

  lemma {:induction false} PassOverStage(ps: seq<Piece>, lits: seq<string>, i: nat)
    requires 1 <= i <= |lits| && AllShaped(lits) && WellFormed(ps, |lits|) && Apart(ps, lits)
    ensures ReplaceAll(Stage(ps, lits, i + 1), Placeholder(i), lits[i - 1]) == Stage(ps, lits, i)
  {
    if ps != [] {
      ApartTail(ps, lits);
      WellFormedTail(ps, |lits|);
      PassOverStage(ps[1..], lits, i);
      PieceDoesNotStraddle(ps, lits, i);
      PassOverPiece(ps[0], lits, i);
      ReplaceAllParts(StagePiece(ps[0], lits, i + 1), Stage(ps[1..], lits, i + 1), Placeholder(i), lits[i - 1]);
    }
  }

  lemma {:induction false} StartIsStage(ps: seq<Piece>, lits: seq<string>)
    requires WellFormed(ps, |lits|)
    ensures Render(ps) == Stage(ps, lits, |lits| + 1)
  {
    if ps != [] {
      WellFormedTail(ps, |lits|);
      StartIsStage(ps[1..], lits);
    }
  }

  lemma {:induction false} PassesAreStages(ps: seq<Piece>, lits: seq<string>, i: nat)
    requires i <= |lits| && AllShaped(lits) && WellFormed(ps, |lits|) && Apart(ps, lits)
    ensures Passes(Stage(ps, lits, i + 1), lits, i, 1) == Stage(ps, lits, 1)
    decreases i
  {
    if i > 0 {
      PassOverStage(ps, lits, i);
      PassesAreStages(ps, lits, i - 1);
    }
  }

  // The result.

  ghost predicate AllInert(ps: seq<Piece>, lits: seq<string>) {
    forall j :: 0 <= j < |ps| && ps[j].Param? && 1 <= ps[j].k <= |lits| ==> Inert(lits[ps[j].k - 1], ps[j].k)
  }

  lemma {:induction false} StageOrDeparts(ps: seq<Piece>, lits: seq<string>)
    requires AllShaped(lits) && WellFormed(ps, |lits|)
    ensures AllInert(ps, lits) ==> Stage(ps, lits, 1) == Simultaneous(ps, lits)
    ensures !AllInert(ps, lits) ==> Departs(Stage(ps, lits, 1), Simultaneous(ps, lits))
  {
    if ps != [] {
      WellFormedTail(ps, |lits|);
      StageOrDeparts(ps[1..], lits);
      AllInertTail(ps, lits);
      var stage, all := Stage(ps[1..], lits, 1), Simultaneous(ps[1..], lits);
      match ps[0]
      case Text(s) =>
        if !AllInert(ps[1..], lits) {
          DepartsAfter(s, stage, all);
        }
      case Param(k) =>
        var x := Passes(lits[k - 1], lits, k - 1, 1);
        PassesDepart(lits[k - 1], lits, k - 1);
        if !Inert(lits[k - 1], k) {
          DepartsBefore(x, lits[k - 1], stage, all);
        } else if !AllInert(ps[1..], lits) {
          DepartsAfter(x, stage, all);
        }
    }
  }

  lemma AllInertTail(ps: seq<Piece>, lits: seq<string>)
    requires ps != [] && WellFormed(ps, |lits|)
    ensures ps[0].Param? ==> 1 <= ps[0].k <= |lits|
    ensures AllInert(ps, lits) <==>
            AllInert(ps[1..], lits) && (ps[0].Param? ==> Inert(lits[ps[0].k - 1], ps[0].k))
  {
    WellFormedTail(ps, |lits|);
    assert forall j :: 0 <= j < |ps[1..]| ==> ps[1..][j] == ps[j + 1];
    if AllInert(ps[1..], lits) && (ps[0].Param? ==> Inert(lits[ps[0].k - 1], ps[0].k)) {
      forall j | 0 <= j < |ps| && ps[j].Param? && 1 <= ps[j].k <= |lits| ensures Inert(lits[ps[j].k - 1], ps[j].k) {
        if j > 0 {
          assert ps[1..][j - 1] == ps[j];
        }
      }
    }
  }

  /** Where no placeholder is completed to another by its neighbours, replacing one
      after the other is replacing all at once exactly when no literal that is used
      contains the placeholder of a lower-numbered argument; one that does is
      substituted into a second time. */
  lemma InliningIsSimultaneous(ps: seq<Piece>, args: seq<Arg>)
    requires WellFormed(ps, |args|) && Apart(ps, Literals(args))
    requires forall k :: 0 <= k < |args| ==> Printable(args[k])
    ensures Passes(Render(ps), Literals(args), |args|, 1) == Simultaneous(ps, Literals(args))
       <==> AllInert(ps, Literals(args))
  {
    var lits := Literals(args);
    forall k | 0 <= k < |lits| ensures LiteralShape(lits[k]) {
      LiteralsHaveShape(args[k]);
    }
    StartIsStage(ps, lits);
    PassesAreStages(ps, lits, |lits|);
    StageOrDeparts(ps, lits);
  }

  /** A text argument that looks like a lower placeholder does not survive. */
  lemma SubstitutedAgain()
    ensures var args := [IntArg(7), TextArg("$1")];
            Render([Param(2)]) == "$2" && Simultaneous([Param(2)], Literals(args)) == "'$1'"
            && Passes("$2", Literals(args), 2, 1) == "'7'"
  {
    hide Passes, StartsWith, IsDigit, Placeholder, ReplaceAll;
    var lits := Literals([IntArg(7), TextArg("$1")]);
    LiteralsAgain();
    assert Placeholder(1) == "$1" && Placeholder(2) == "$2" by {
      SmallPlaceholders();
    }
    assert Render([Param(2)]) == "$2" && Simultaneous([Param(2)], lits) == "'$1'" by {
      assert [Param(2)][1..] == [];
      assert Render([]) == [] && Simultaneous([], lits) == [];
    }
    OwnPlaceholder(2, lits[1]);
    OnePass("$2", lits, 2);
    SecondPass();
    OnePass("'$1'", lits, 1);
    PassesWithout("'7'", lits, 0);
  }

  lemma LiteralsAgain()
    ensures Literals([IntArg(7), TextArg("$1")]) == ["7", "'$1'"]
  {
    var args := [IntArg(7), TextArg("$1")];
    assert Digits(7) == "7";
    assert SparkLiteral(args[0]) == "7";
    ReplaceAllAbsent("$1", "'", "''");
    assert SparkLiteral(args[1]) == "'" + "$1" + "'" == "'$1'";
    assert Literals(args) == [SparkLiteral(args[0]), SparkLiteral(args[1])];
  }

  lemma SecondPass()
    ensures ReplaceAll("'$1'", "$1", "7") == "'7'"
  {
    SmallPlaceholders();
    LiteralDoesNotStraddle("'", "$1'", 1);
    ReplaceAllParts("'", "$1'", "$1", "7");
    PlaceholderDoesNotStraddle(1, "'", 1);
    ReplaceAllParts("$1", "'", "$1", "7");
    OwnPlaceholder(1, "7");
    ReplaceAllAbsent("'", "$1", "7");
    assert "'" + "$1'" == "'$1'" && "$1" + "'" == "$1'";
  }

  /** The pair of placeholders of arguments k and m, in that order, cannot read as
      another: k is not the lower, or the literal of m starts with no digit. */
  ghost predicate Harmless(k: nat, m: nat, lits: seq<string>) {
    k >= m || (m <= |lits| && lits[m - 1] != [] && !IsDigit(lits[m - 1][0]))
  }

  /** Neighbours that are harmless in pairs, and so all placeholders that do not touch,
      are apart. */
  lemma HarmlessIsApart(ps: seq<Piece>, lits: seq<string>)
    requires WellFormed(ps, |lits|)
    requires forall j :: 0 <= j < |ps| - 1 && ps[j].Param? && ps[j + 1].Param? ==> Harmless(ps[j].k, ps[j + 1].k, lits)
    ensures Apart(ps, lits)
  {
    forall j: nat, i: nat | j < |ps| ensures !ReadsAs(ps, lits, j, i) {
      if ps[j].Param? && ps[j].k < i <= |lits| {
        assert PieceFits(ps, j, |lits|);
        assert j + 1 < |ps| ==> ps[j + 1..][0] == ps[j + 1] && PieceFits(ps, j + 1, |lits|);
        NotTaken(ps[j].k, Following(ps[j + 1..], lits, i), i);
      }
    }
  }

  lemma NotTaken(k: nat, b: string, i: nat)
    requires k < i && (b == [] || !IsDigit(b[0]))
    ensures !StartsWith(Placeholder(k) + b, Placeholder(i))
  {
    var a, pat := Placeholder(k), Placeholder(i);
    NotAPrefix(k, i);
    SameHead('$', Digits(k), Digits(i));
    if |pat| <= |a| {
      assert (a + b)[..|pat|] == a[..|pat|];
    } else {
      PlaceholderDoesNotStraddle(k, b, i);
      assert (a + b)[0..] == a + b;
    }
  }

  /** What the condition guards against: the twentieth of twenty arguments, next to
      the first, is written 2, and "$1$20" turns into "$12". */
  lemma AdjacentPlaceholders(args: seq<Arg>)
    requires |args| == 20 && args[0] == IntArg(7) && args[11] == IntArg(5) && args[19] == IntArg(2)
    ensures var ps, lits := [Param(1), Param(20)], Literals(args);
            && Render(ps) == "$1$20" && WellFormed(ps, 20) && ReadsAs(ps, lits, 0, 12)
            && Simultaneous(ps, lits) == "72" && Passes("$1$20", lits, 20, 1) == "5"
  {
    hide Passes, IsDigit;
    var ps, lits := [Param(1), Param(20)], Literals(args);
    SmallPlaceholders();
    assert Digits(2) == "2" && Digits(5) == "5" && Digits(7) == "7";
    hide Digits, Placeholder;
    assert lits[0] == "7" && lits[11] == "5" && lits[19] == "2";
    assert ps[1..] == [Param(20)] && ps[1..][1..] == [];
    PairOf120(ps, lits);
    TwentiethPass();
    OnePass("$1$20", lits, 20);
    PassesOverLower(12, lits, 19);
    OnePass("$12", lits, 12);
    OwnPlaceholder(12, "5");
    PassesWithout("5", lits, 11);
  }

  lemma PairOf120(ps: seq<Piece>, lits: seq<string>)
    requires ps == [Param(1), Param(20)] && |lits| == 20 && lits[0] == "7" && lits[19] == "2"
    ensures Render(ps) == "$1$20" && Simultaneous(ps, lits) == "72" && ReadsAs(ps, lits, 0, 12)
  {
    hide ReplaceAll, IsDigit;
    SmallPlaceholders();
    hide Placeholder;
    assert ps[1..] == [Param(20)] && ps[1..][1..] == [];
    assert Render([]) == [] && Simultaneous([], lits) == [] && Following([], lits, 12) == [];
    assert Following(ps[1..], lits, 12) == "2";
    assert "$1" + "2" == "$12";
  }

  lemma SmallPlaceholders()
    ensures Placeholder(1) == "$1" && Placeholder(2) == "$2" && Placeholder(12) == "$12" && Placeholder(20) == "$20"
  {
    assert Digits(1) == "1" && Digits(2) == "2";
    assert Digits(12) == "12" && Digits(20) == "20";
  }

  lemma TwentiethPass()
    ensures ReplaceAll("$1$20", "$20", "2") == "$12"
  {
    SmallPlaceholders();
    PlaceholderDoesNotStraddle(1, "$20", 20);
    ReplaceAllParts("$1", "$20", "$20", "2");
    OwnPlaceholder(20, "2");
    LowerPlaceholder(1, 20, "2");
    assert "$1" + "$20" == "$1$20";
  }

  lemma OnePass(s: string, lits: seq<string>, hi: nat)
    requires 1 <= hi <= |lits|
    ensures Passes(s, lits, hi, 1) == Passes(ReplaceAll(s, Placeholder(hi), lits[hi - 1]), lits, hi - 1, 1)
  {}

  /** The passes above k leave the k-th placeholder alone. */
  lemma {:induction false} PassesOverLower(k: nat, lits: seq<string>, hi: nat)
    requires 1 <= k <= hi <= |lits|
    ensures Passes(Placeholder(k), lits, hi, 1) == Passes(Placeholder(k), lits, k, 1)
    decreases hi
  {
    if k < hi {
      LowerPlaceholder(k, hi, lits[hi - 1]);
      PassesOverLower(k, lits, hi - 1);
    }
  }

  lemma {:induction false} PassesWithout(s: string, lits: seq<string>, hi: nat)
    requires hi <= |lits| && '$' !in s
    ensures Passes(s, lits, hi, 1) == s
    decreases hi
  {
    if hi > 0 {
      ReplaceAllAbsent(s, Placeholder(hi), lits[hi - 1]);
      PassesWithout(s, lits, hi - 1);
    }
  }

  // Quoted text read back.

  /** SQL's reading of a string literal: the text up to the closing quote, where a
      doubled quote stands for one, and what follows. */
  function ReadQuoted(s: string): Option<(string, string)> {
    if s == [] || s[0] != '\'' then None else ReadRest(s[1..])
  }

  function ReadRest(s: string): Option<(string, string)> {
    if s == [] then None
    else if s[0] != '\'' then Prepend(s[0], ReadRest(s[1..]))
    else if |s| > 1 && s[1] == '\'' then Prepend('\'', ReadRest(s[2..]))
    else Some(([], s[1..]))
  }

  function Prepend(c: char, r: Option<(string, string)>): Option<(string, string)> {
    match r
    case None => None
    case Some(p) => Some(([c] + p.0, p.1))
  }

  /** Whatever the text, quoting it makes one literal that reads back as the text. */
  lemma QuoteReadsBack(x: string, rest: string)
    requires rest != [] ==> rest[0] != '\''
    ensures ReadQuoted(Quote(x) + rest) == Some((x, rest))
  {
    DoubledReadsBack(x, rest);
    assert (Quote(x) + rest)[1..] == ReplaceAll(x, "'", "''") + ("'" + rest);
  }

  lemma {:induction false} DoubledReadsBack(x: string, rest: string)
    requires rest != [] ==> rest[0] != '\''
    ensures ReadRest(ReplaceAll(x, "'", "''") + ("'" + rest)) == Some((x, rest))
  {
    hide *;
    var tail := "'" + rest;
    if x == [] {
      ReadEnd(rest);
    } else {
      var more := ReplaceAll(x[1..], "'", "''");
      DoubledReadsBack(x[1..], rest);
      DoubledCons(x);
      ReadTwo(more, tail);
      ReadOne(x[0], more, tail);
      Prepended(x[0], x[1..], rest);
      assert x == [x[0]] + x[1..];
    }
  }

  lemma Prepended(c: char, s: string, rest: string)
    ensures Prepend(c, Some((s, rest))) == Some(([c] + s, rest))
  {}

  lemma ReadEnd(rest: string)
    requires rest != [] ==> rest[0] != '\''
    ensures ReadRest(ReplaceAll([], "'", "''") + ("'" + rest)) == Some(([], rest))
  {
    assert ReplaceAll([], "'", "''") + ("'" + rest) == "'" + rest;
    assert ("'" + rest)[1..] == rest;
  }

  lemma DoubledCons(x: string)
    requires x != []
    ensures ReplaceAll(x, "'", "''") ==
            (if x[0] == '\'' then "''" else [x[0]]) + ReplaceAll(x[1..], "'", "''")
  {
    assert x[..1] == [x[0]];
  }

  lemma ReadTwo(a: string, s: string)
    ensures ReadRest(("''" + a) + s) == Prepend('\'', ReadRest(a + s))
  {
    assert (("''" + a) + s)[2..] == a + s;
  }

  lemma ReadOne(c: char, a: string, s: string)
    ensures c != '\'' ==> ReadRest(([c] + a) + s) == Prepend(c, ReadRest(a + s))
  {
    assert (([c] + a) + s)[1..] == a + s;
  }

  // Literals read back.

  datatype SqlValue = SqlNull | SqlNumber(text: string) | SqlText(s: string)

  /** SQL's reading of one whole literal: the word NULL, quoted text, or else the text
      of a number. */
  function ReadSql(lit: string): Option<SqlValue> {
    if lit == "NULL" then Some(SqlNull)
    else if lit != [] && lit[0] == '\'' then
      match ReadQuoted(lit)
      case Some((s, rest)) => if rest == [] then Some(SqlText(s)) else None
      case None => None
    else if lit != [] then Some(SqlNumber(lit))
    else None
  }

  /** Read as SQL the literal is the argument's own value. */
  ghost predicate Means(lit: string, a: Arg) {
    match a
    case NullArg => ReadSql(lit) == Some(SqlNull)
    case IntArg(i) => exists text :: ReadSql(lit) == Some(SqlNumber(text)) && IsTextOf(text, i)
    case FloatArg(text) => ReadSql(lit) == Some(SqlNumber(text))
    case TextArg(s) => ReadSql(lit) == Some(SqlText(s))
    case OtherArg(shown) => ReadSql(lit) == Some(SqlText(shown))
  }

  /** The text is a sign, if the integer is negative, and the digits of its amount. */
  ghost predicate IsTextOf(text: string, i: int) {
    var digits := if i < 0 && text != [] then text[1..] else text;
    && (i < 0 ==> text != [] && text[0] == '-')
    && AllDigits(digits) && digits != [] && Value(digits) == if i < 0 then -i else i
  }

  ghost predicate AllMean(lits: seq<string>, args: seq<Arg>) {
    |lits| == |args| && forall k :: 0 <= k < |args| ==> Means(lits[k], args[k])
  }

  /** Every argument is written as a literal of its own value. */
  lemma LiteralMeans(a: Arg)
    requires Printable(a)
    ensures Means(SparkLiteral(a), a)
  {
    match a
    case NullArg =>
    case IntArg(i) => IntMeans(i);
    case FloatArg(text) =>
      assert text[0] in text;
      assert text != "NULL" by {
        assert "NULL"[1] == 'U' && 'U' in "NULL";
      }
    case TextArg(s) => QuoteMeans(s);
    case OtherArg(shown) => QuoteMeans(shown);
  }

  lemma IntMeans(i: int)
    ensures ReadSql(Itoa(i)) == Some(SqlNumber(Itoa(i))) && IsTextOf(Itoa(i), i)
  {
    DigitsValue(if i < 0 then -i else i);
    assert i < 0 ==> Itoa(i)[1..] == Digits(-i);
    assert i >= 0 ==> IsDigit(Itoa(i)[0]);
    assert "NULL"[0] == 'N' && !IsDigit('N');
  }

  lemma QuoteMeans(s: string)
    ensures ReadSql(Quote(s)) == Some(SqlText(s))
  {
    QuoteReadsBack(s, []);
    assert Quote(s) + [] == Quote(s);
    assert Quote(s)[0] == '\'';
  }

  lemma LiteralsMean(args: seq<Arg>)
    ensures (forall k :: 0 <= k < |args| ==> Printable(args[k])) ==> AllMean(Literals(args), args)
  {
    if forall k :: 0 <= k < |args| ==> Printable(args[k]) {
      forall k | 0 <= k < |args| ensures Means(Literals(args)[k], args[k]) {
        LiteralMeans(args[k]);
      }
    }
  }

  /** So a number or a text is not confused with another, nor either with NULL. */
  lemma LiteralsTell(a: Arg, b: Arg)
    requires Printable(a) && Printable(b) && SparkLiteral(a) == SparkLiteral(b)
    ensures a.NullArg? <==> b.NullArg?
    ensures a.IntArg? && b.IntArg? ==> a == b
    ensures a.FloatArg? && b.FloatArg? ==> a == b
    ensures a.TextArg? && b.TextArg? ==> a == b
    ensures a.TextArg? || a.OtherArg? <==> b.TextArg? || b.OtherArg?
  {
    LiteralMeans(a);
    LiteralMeans(b);
    if a.IntArg? && b.IntArg? {
      ItoaInjective(a.i, b.i);
    }
    hide Quote, Itoa;
  }
}
