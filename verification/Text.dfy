/** The string operations of Go's strings and strconv packages that the modelled
    code relies on, each with the facts the other modules need. */
module Text {

  datatype Option<+T> = None | Some(value: T)

  lemma Snoc<T>(s: seq<T>, x: T)
    ensures |s + [x]| == |s| + 1 && (s + [x])[..|s|] == s && (s + [x])[|s|] == x
    ensures s + [x] != []
  {}

  lemma Unsnoc<T>(s: seq<T>)
    requires s != []
    ensures s == s[..|s| - 1] + [s[|s| - 1]]
  {}

  ghost predicate HasSuffix(s: string, suffix: string) {
    |suffix| <= |s| && s[|s| - |suffix|..] == suffix
  }

  function TrimSuffix(s: string, suffix: string): (r: string)
    ensures HasSuffix(s, suffix) ==> s == r + suffix
    ensures !HasSuffix(s, suffix) ==> r == s
  {
    if |suffix| <= |s| && s[|s| - |suffix|..] == suffix then s[..|s| - |suffix|] else s
  }

  function TrimPrefix(s: string, prefix: string): (r: string)
    ensures prefix <= s ==> s == prefix + r
    ensures !(prefix <= s) ==> r == s
  {
    if prefix <= s then s[|prefix|..] else s
  }

  /** strings.TrimRight with a one-character cutset. */
  function TrimRight(s: string, c: char): string {
    if s != [] && s[|s| - 1] == c then TrimRight(s[..|s| - 1], c) else s
  }

  lemma {:induction false} TrimRightDrops(s: string, c: char)
    ensures var r := TrimRight(s, c);
      && r <= s && (r != [] ==> r[|r| - 1] != c) && forall i | |r| <= i < |s| :: s[i] == c
  {
    if s != [] && s[|s| - 1] == c {
      TrimRightDrops(s[..|s| - 1], c);
    }
  }

  /** strings.Split on a one-character separator: never empty. */
  function Split(s: string, sep: char): (r: seq<string>)
    ensures r != []
  {
    if s == [] then [""]
    else
      var rest := Split(s[1..], sep);
      if s[0] == sep then [""] + rest else [[s[0]] + rest[0]] + rest[1..]
  }

  function Join(parts: seq<string>, sep: char): string
    requires parts != []
  {
    if |parts| == 1 then parts[0] else parts[0] + [sep] + Join(parts[1..], sep)
  }

  lemma {:induction false} JoinSplit(s: string, sep: char)
    ensures Join(Split(s, sep), sep) == s
  {
    if s != [] {
      var rest := Split(s[1..], sep);
      JoinSplit(s[1..], sep);
      if s[0] == sep {
        assert ([""] + rest)[1..] == rest;
      } else {
        var parts := [[s[0]] + rest[0]] + rest[1..];
        assert parts[1..] == rest[1..];
      }
    }
  }

  /** Split inverts Join on parts that do not contain the separator. */
  lemma {:induction false} SplitJoin(parts: seq<string>, sep: char)
    requires parts != []
    requires forall p | p in parts :: sep !in p
    ensures Split(Join(parts, sep), sep) == parts
  {
    if |parts| == 1 {
      SplitWhole(parts[0], sep);
    } else {
      SplitJoin(parts[1..], sep);
      SplitHead(parts[0], Join(parts[1..], sep), sep);
      assert parts == [parts[0]] + parts[1..];
    }
  }

  lemma {:induction false} SplitWhole(p: string, sep: char)
    requires sep !in p
    ensures Split(p, sep) == [p]
  {
    if p != [] {
      SplitWhole(p[1..], sep);
      assert p[0] in p && p == [p[0]] + p[1..];
    }
  }

  lemma {:induction false} SplitHead(p: string, t: string, sep: char)
    requires sep !in p
    ensures Split(p + [sep] + t, sep) == [p] + Split(t, sep)
  {
    var s := p + [sep] + t;
    if p == [] {
      assert s[1..] == t;
    } else {
      SplitHead(p[1..], t, sep);
      assert p[0] in p && p == [p[0]] + p[1..];
      assert s[1..] == p[1..] + [sep] + t;
      assert ([p[1..]] + Split(t, sep))[1..] == Split(t, sep);
    }
  }

  lemma PrefixCons<T>(x: T, a: seq<T>, y: T, b: seq<T>)
    ensures [x] + a <= [y] + b <==> x == y && a <= b
  {
    if [x] + a <= [y] + b {
      assert x == ([x] + a)[0] == ([y] + b)[0] == y;
      assert forall i | 0 <= i < |a| :: a[i] == ([x] + a)[i + 1] == ([y] + b)[i + 1];
    }
  }

  /** The same for lists of strings whose heads start with x and y. */
  lemma HeadCons(x: char, a: seq<string>, y: char, b: seq<string>)
    requires a != [] && b != []
    ensures [[x] + a[0]] + a[1..] <= [[y] + b[0]] + b[1..] <==> x == y && a <= b
  {
    PrefixCons([x] + a[0], a[1..], [y] + b[0], b[1..]);
    PrefixCons(a[0], a[1..], b[0], b[1..]);
    assert a == [a[0]] + a[1..] && b == [b[0]] + b[1..];
    if [x] + a[0] == [y] + b[0] {
      assert x == ([x] + a[0])[0] && a[0] == ([x] + a[0])[1..] == ([y] + b[0])[1..];
    }
  }

  /** s is p, or goes on from p with the separator. */
  predicate Extends(p: string, s: string, sep: char) {
    s == p || p + [sep] <= s
  }

  lemma ExtendsCons(p: string, s: string, sep: char)
    requires p != [] && s != []
    ensures Extends(p, s, sep) <==> p[0] == s[0] && Extends(p[1..], s[1..], sep)
  {
    assert p == [p[0]] + p[1..] && s == [s[0]] + s[1..];
    assert p + [sep] == [p[0]] + (p[1..] + [sep]);
    PrefixCons(p[0], p[1..] + [sep], s[0], s[1..]);
  }

  /** A list prefix of the split elements is a string prefix that ends at an
      element boundary. */
  lemma {:induction false} SplitPrefix(p: string, s: string, sep: char)
    ensures Split(p, sep) <= Split(s, sep) <==> Extends(p, s, sep)
  {
    if p == [] {
      assert p + [sep] == [sep];
      assert s != [] ==> (Split(s, sep)[0] == "" <==> s[0] == sep);
    } else if s != [] {
      SplitPrefix(p[1..], s[1..], sep);
      hide Extends;
      ExtendsCons(p, s, sep);
      var pr, sr := Split(p[1..], sep), Split(s[1..], sep);
      if p[0] == sep && s[0] == sep {
        PrefixCons("", pr, "", sr);
      } else if p[0] != sep && s[0] != sep {
        HeadCons(p[0], pr, s[0], sr);
      } else {
        assert Split(p, sep)[0] != Split(s, sep)[0];
      }
    }
  }

  /** Splitting is on one separator only: what has none of it stays with the last element. */
  lemma {:induction false} SplitAppend(s: string, t: string, sep: char)
    requires sep !in t
    ensures var parts := Split(s, sep); var n := |parts| - 1;
      Split(s + t, sep) == parts[..n] + [parts[n] + t]
  {
    if s == "" {
      assert s + t == t;
      SplitWhole(t, sep);
    } else {
      SplitAppend(s[1..], t, sep);
      assert (s + t)[1..] == s[1..] + t;
      AppendToLast(s[0], Split(s[1..], sep), t, sep);
    }
  }

  lemma AppendToLast(c: char, rest: seq<string>, t: string, sep: char)
    requires rest != []
    ensures var n := |rest| - 1; var longer := rest[..n] + [rest[n] + t];
      var parts := if c == sep then [""] + rest else [[c] + rest[0]] + rest[1..];
      (if c == sep then [""] + longer else [[c] + longer[0]] + longer[1..])
      == parts[..|parts| - 1] + [parts[|parts| - 1] + t]
  {
    if c != sep && |rest| == 1 {
      assert [c] + (rest[0] + t) == [c] + rest[0] + t;
    }
  }

  // ---- labels ----

  predicate Alnum(c: char) {
    'a' <= c <= 'z' || '0' <= c <= '9'
  }

  predicate LabelChars(s: string) {
    forall i | 0 <= i < |s| :: Alnum(s[i]) || s[i] == '-'
  }

  /** ^[a-z0-9]([-a-z0-9]*[a-z0-9])?$ */
  predicate DNSLabel(s: string) {
    s != "" && Alnum(s[0]) && Alnum(s[|s| - 1]) && LabelChars(s)
  }

  /** A dotted list of labels. */
  predicate DottedLabels(s: string) {
    forall part | part in Split(s, '.') :: DNSLabel(part)
  }

  // ---- decimal numbers, as strconv and %d print them ----

  predicate IsDigit(c: char) { '0' <= c <= '9' }

  predicate AllDigits(s: string) { forall i | 0 <= i < |s| :: IsDigit(s[i]) }

  function Digit(d: nat): (c: char)
    requires d < 10
    ensures IsDigit(c) && DigitValue(c) == d
  {
    '0' + d as char
  }

  function DigitValue(c: char): (d: nat)
    requires IsDigit(c)
    ensures d < 10
  {
    c as int - '0' as int
  }

  function Decimal(n: nat): (s: string)
    ensures s != [] && AllDigits(s)
  {
    if n < 10 then [Digit(n)] else Decimal(n / 10) + [Digit(n % 10)]
  }

  function Value(s: string): nat
    requires AllDigits(s)
  {
    if s == [] then 0 else 10 * Value(s[..|s| - 1]) + DigitValue(s[|s| - 1])
  }

  /** What %d prints: digits with no leading zero. */
  predicate Canonical(s: string) {
    s != [] && AllDigits(s) && (s[0] == '0' ==> |s| == 1)
  }

  lemma {:induction false} ValueDecimal(n: nat)
    ensures Value(Decimal(n)) == n
    ensures Canonical(Decimal(n)) && (Decimal(n)[0] == '0' <==> n == 0)
  {
    if n < 10 {
      assert Decimal(n)[..0] == [];
    } else {
      ValueDecimal(n / 10);
      var s := Decimal(n);
      assert s[..|s| - 1] == Decimal(n / 10);
    }
  }

  lemma {:induction false} DecimalValue(s: string)
    requires Canonical(s)
    ensures Decimal(Value(s)) == s
    ensures s[0] != '0' ==> Value(s) > 0
  {
    if |s| == 1 {
      assert s[..0] == [];
    } else {
      var init := s[..|s| - 1];
      DecimalValue(init);
      assert Value(init) > 0;
      assert Value(s) / 10 == Value(init) && Value(s) % 10 == DigitValue(s[|s| - 1]);
      assert s == init + [s[|s| - 1]];
    }
  }

  lemma DecimalInjective(a: nat, b: nat)
    requires Decimal(a) == Decimal(b)
    ensures a == b
  {
    ValueDecimal(a);
    ValueDecimal(b);
  }

  function Pow10(k: nat): (p: nat)
    ensures p > 0
  {
    if k == 0 then 1 else 10 * Pow10(k - 1)
  }

  lemma {:induction false} DecimalWidth(n: nat, k: nat)
    requires k > 0
    ensures |Decimal(n)| <= k <==> n < Pow10(k)
  {
    if n >= 10 && k > 1 {
      DecimalWidth(n / 10, k - 1);
    } else if n >= 10 {
      assert |Decimal(n / 10)| >= 1;
    } else {
      PowAtLeastTen(k);
    }
  }

  lemma {:induction false} PowAtLeastTen(k: nat)
    requires k > 0
    ensures Pow10(k) >= 10
  {}

  lemma Widths()
    ensures Pow10(1) == 10 && Pow10(2) == 100 && Pow10(3) == 1000
    ensures Pow10(6) == 1000000 && Pow10(7) == 10000000
  {}
}
