/** String helpers shared by the job classifier and the UI helpers:
    decimal rendering of integers (JavaScript's String(n) on integral numbers),
    joining and splitting on a separator, ASCII case mapping and a
    first-occurrence replace (String.prototype.replace with a non-global pattern). */
module Text {

  /** The decimal digit for d. */
  function Digit(d: nat): (c: char)
    requires d < 10
    ensures '0' <= c <= '9'
  {
    "0123456789"[d]
  }

  predicate IsDigit(c: char) {
    '0' <= c <= '9'
  }

  function DigitValue(c: char): (d: nat)
    requires IsDigit(c)
    ensures d < 10
  {
    (c as int - '0' as int) as nat
  }

  predicate AllDigits(s: string) {
    forall i :: 0 <= i < |s| ==> IsDigit(s[i])
  }

  /** Decimal rendering of a natural number, without leading zeros. */
  function NatToString(n: nat): (s: string)
    ensures |s| >= 1 && AllDigits(s)
    ensures s[0] == '0' ==> n == 0
    decreases n
  {
    if n < 10 then [Digit(n)] else NatToString(n / 10) + [Digit(n % 10)]
  }

  /** Reads a run of decimal digits back into a number. */
  function ParseNat(s: string): nat
    requires AllDigits(s)
  {
    if |s| == 0 then 0 else ParseNat(s[..|s| - 1]) * 10 + DigitValue(s[|s| - 1])
  }

  lemma {:induction false} ParseNatToString(n: nat)
    ensures ParseNat(NatToString(n)) == n
    decreases n
  {
    var s := NatToString(n);
    if n < 10 {
      assert s[..0] == [];
    } else {
      ParseNatToString(n / 10);
      assert s[..|s| - 1] == NatToString(n / 10);
      assert DigitValue(s[|s| - 1]) == n % 10;
    }
  }

  /** JavaScript's String(n) for an integral number: an optional minus sign and the decimal digits. */
  function IntToString(i: int): (s: string)
    ensures |s| >= 1
    ensures (s[0] == '-') <==> i < 0
    ensures s[0] == '-' ==> AllDigits(s[1..])
    ensures s[0] != '-' ==> AllDigits(s)
  {
    if i < 0 then "-" + NatToString(-i) else NatToString(i)
  }

  /** The inverse of IntToString. */
  function ParseInt(s: string): int
    requires |s| >= 1
    requires s[0] == '-' ==> AllDigits(s[1..])
    requires s[0] != '-' ==> AllDigits(s)
  {
    if s[0] == '-' then 0 - ParseNat(s[1..]) as int else ParseNat(s)
  }

  lemma IntToStringRoundTrip(i: int)
    ensures ParseInt(IntToString(i)) == i
  {
    if i < 0 {
      ParseNatToString(-i);
      assert IntToString(i)[1..] == NatToString(-i);
    } else {
      ParseNatToString(i);
    }
  }

  /** Distinct numbers render to distinct strings. */
  lemma IntToStringInjective(i: int, j: int)
    requires IntToString(i) == IntToString(j)
    ensures i == j
  {
    IntToStringRoundTrip(i);
    IntToStringRoundTrip(j);
  }

  /** Array.prototype.join: the parts with sep between consecutive parts. */
  function Join(parts: seq<string>, sep: string): string
    decreases |parts|
  {
    if |parts| == 0 then ""
    else if |parts| == 1 then parts[0]
    else parts[0] + sep + Join(parts[1..], sep)
  }

  /** String.prototype.split on one character: the maximal runs between separators.
      Like JavaScript, the empty string splits into one empty part. */
  function Split(s: string, c: char): (r: seq<string>)
    ensures |r| >= 1
    ensures forall k :: 0 <= k < |r| ==> c !in r[k]
    decreases |s|
  {
    if |s| == 0 then [""]
    else
      var rest := Split(s[1..], c);
      if s[0] == c then [""] + rest
      else [[s[0]] + rest[0]] + rest[1..]
  }

  /** Joining the parts of a split with the separator gives the string back. */
  lemma {:induction false} JoinSplit(s: string, c: char)
    ensures Join(Split(s, c), [c]) == s
    decreases |s|
  {
    if |s| > 0 {
      var rest := Split(s[1..], c);
      JoinSplit(s[1..], c);
      if s[0] == c {
        assert Split(s, c) == [""] + rest;
        assert Join([""] + rest, [c]) == "" + [c] + Join(rest, [c]);
        assert s == [s[0]] + s[1..];
      } else {
        var r := [[s[0]] + rest[0]] + rest[1..];
        assert Split(s, c) == r;
        if |rest| == 1 {
          assert Join(r, [c]) == [s[0]] + rest[0];
          assert Join(rest, [c]) == rest[0];
        } else {
          assert r[1..] == rest[1..];
          assert Join(r, [c]) == [s[0]] + rest[0] + [c] + Join(rest[1..], [c]);
          assert Join(rest, [c]) == rest[0] + [c] + Join(rest[1..], [c]);
        }
        assert s == [s[0]] + s[1..];
      }
    }
  }

  /** Splitting a string that starts with a separator-free part p. */
  lemma {:induction false} SplitPrefix(p: string, t: string, c: char)
    requires c !in p
    ensures Split(p + t, c) == [p + Split(t, c)[0]] + Split(t, c)[1..]
    decreases |p|
  {
    if |p| > 0 {
      SplitPrefix(p[1..], t, c);
      var st := Split(t, c);
      assert (p + t)[1..] == p[1..] + t;
      assert (p + t)[0] == p[0];
      var rest := Split(p[1..] + t, c);
      assert rest[0] == p[1..] + st[0] && rest[1..] == st[1..];
      assert Split(p + t, c) == [[p[0]] + rest[0]] + rest[1..];
      ConcatAssoc([p[0]], p[1..], st[0]);
      assert [p[0]] + p[1..] == p;
    } else {
      var st := Split(t, c);
      assert p + t == t;
      assert p + st[0] == st[0];
      assert st == [st[0]] + st[1..];
    }
  }

  /** Regrouping a three-part concatenation. */
  lemma ConcatAssoc<T>(x: seq<T>, y: seq<T>, z: seq<T>)
    ensures x + (y + z) == x + y + z
  {
  }

  /** Joining with no separator is concatenation, so it distributes over appended lists. */
  lemma {:induction false} JoinNoSeparatorAppend(a: seq<string>, b: seq<string>)
    ensures Join(a + b, "") == Join(a, "") + Join(b, "")
    decreases |a|
  {
    if |a| == 0 {
      assert a + b == b;
    } else if |a| == 1 {
      if |b| > 0 {
        assert (a + b)[1..] == b;
      } else {
        assert a + b == a;
      }
    } else {
      assert (a + b)[1..] == a[1..] + b;
      JoinNoSeparatorAppend(a[1..], b);
      ConcatAssoc(a[0], Join(a[1..], ""), Join(b, ""));
    }
  }

  /** A leading separator splits off one empty part. */
  lemma SplitLeadingSeparator(u: string, c: char)
    ensures Split([c] + u, c) == [""] + Split(u, c)
  {
    assert ([c] + u)[1..] == u;
  }

  /** Splitting a join of separator-free parts gives the parts back. */
  lemma {:induction false} SplitJoin(parts: seq<string>, c: char)
    requires |parts| >= 1
    requires forall k :: 0 <= k < |parts| ==> c !in parts[k]
    ensures Split(Join(parts, [c]), c) == parts
    decreases |parts|
  {
    if |parts| == 1 {
      SplitPrefix(parts[0], "", c);
      assert parts[0] + "" == parts[0];
    } else {
      var u := Join(parts[1..], [c]);
      SplitJoin(parts[1..], c);
      assert Join(parts, [c]) == parts[0] + ([c] + u);
      SplitPrefix(parts[0], [c] + u, c);
      SplitLeadingSeparator(u, c);
      var s' := Split([c] + u, c);
      assert s'[0] == "" && s'[1..] == parts[1..];
      assert parts[0] + "" == parts[0];
      assert parts == [parts[0]] + parts[1..];
    }
  }

  predicate IsUpper(c: char) {
    'A' <= c <= 'Z'
  }

  predicate IsLower(c: char) {
    'a' <= c <= 'z'
  }

  /** String.prototype.toLowerCase restricted to ASCII upper-case letters. */
  function ToLower(c: char): (r: char)
    requires IsUpper(c)
    ensures IsLower(r)
  {
    (c as int + 32) as char
  }

  function ToUpper(c: char): (r: char)
    requires IsLower(c)
    ensures IsUpper(r)
  {
    (c as int - 32) as char
  }

  lemma ToUpperToLower(c: char)
    requires IsUpper(c)
    ensures ToUpper(ToLower(c)) == c
  {
  }

  /** The index of the first occurrence of c in s. */
  function IndexOf(s: string, c: char): (i: nat)
    requires c in s
    ensures i < |s| && s[i] == c && c !in s[..i]
  {
    if s[0] == c then 0
    else
      assert c in s[1..] by { assert s == [s[0]] + s[1..]; }
      var j := IndexOf(s[1..], c);
      assert s[..j + 1] == [s[0]] + s[1..][..j];
      j + 1
  }

  /** String.prototype.replace with a one-character, non-global pattern: only the first
      occurrence of c is replaced by rep; a string without c is returned unchanged. */
  function ReplaceFirst(s: string, c: char, rep: string): (r: string)
    ensures c !in s ==> r == s
    ensures c in s ==> |r| == |s| - 1 + |rep|
  {
    if |s| == 0 then s
    else if s[0] == c then rep + s[1..]
    else
      assert c in s ==> c in s[1..] by { assert s == [s[0]] + s[1..]; }
      [s[0]] + ReplaceFirst(s[1..], c, rep)
  }

  /** Replacing the first c takes one c out of the string and puts the characters of rep in. */
  lemma {:induction false} ReplaceFirstMultiset(s: string, c: char, rep: string)
    requires c in s
    ensures multiset(ReplaceFirst(s, c, rep)) == multiset(s) - multiset{c} + multiset(rep)
  {
    assert s == [s[0]] + s[1..];
    if s[0] != c {
      ReplaceFirstMultiset(s[1..], c, rep);
    }
  }

  /** The replacement happens at the first occurrence of c and nowhere else. */
  lemma {:induction false} ReplaceFirstAt(s: string, c: char, rep: string)
    requires c in s
    ensures ReplaceFirst(s, c, rep) == s[..IndexOf(s, c)] + rep + s[IndexOf(s, c) + 1..]
  {
    if s[0] == c {
      assert s[..0] == [];
    } else {
      assert c in s[1..] by { assert s == [s[0]] + s[1..]; }
      ReplaceFirstAt(s[1..], c, rep);
      var j := IndexOf(s[1..], c);
      assert IndexOf(s, c) == j + 1;
      assert s[1..][..j] == s[1..j + 1];
      assert s[1..][j + 1..] == s[j + 2..];
      assert [s[0]] + s[1..j + 1] == s[..j + 1];
      ConcatRegroup([s[0]], s[1..j + 1], rep, s[j + 2..]);
    }
  }

  /** Regrouping a four-part concatenation. */
  lemma ConcatRegroup<T>(x: seq<T>, a: seq<T>, r: seq<T>, b: seq<T>)
    ensures x + (a + r + b) == x + a + r + b
  {
  }
}
