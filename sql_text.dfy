/**
  Text helpers shared by the SQL builders and the code generator: joining with a
  separator, decimal rendering of indices, and the placeholder theory used to state
  that a statement's `?` marks and its parameter list agree in number and order.
 */
module SqlText {

  /** `parts` joined by `sep`, as the builders' `if i != 0 { s = s + sep }` loops produce. */
  function Join(parts: seq<string>, sep: string): string
    decreases |parts|
  {
    if |parts| == 0 then ""
    else if |parts| == 1 then parts[0]
    else Join(parts[..|parts| - 1], sep) + sep + parts[|parts| - 1]
  }

  /** Appending one more part to a joined prefix, as each builder loop iteration does. */
  lemma JoinSnoc(parts: seq<string>, sep: string, i: nat)
    requires i < |parts|
    ensures Join(parts[..i + 1], sep) == if i == 0 then parts[0] else Join(parts[..i], sep) + sep + parts[i]
  {
    assert parts[..i + 1][..i] == parts[..i];
  }

  /** A builder loop step that appends a part in two pieces, after a separator unless first. */
  lemma JoinPush(head: string, parts: seq<string>, sep: string, i: nat, x: string, y: string)
    requires i < |parts| && parts[i] == x + y
    ensures head + Join(parts[..i + 1], sep)
         == (if i == 0 then head else head + Join(parts[..i], sep) + sep) + x + y
  {
    JoinSnoc(parts, sep, i);
  }

  /** Four parts joined: the shape of the adaptors' four-column test schema. */
  lemma Join4(a: string, b: string, c: string, d: string, sep: string)
    ensures Join([a, b, c, d], sep) == a + sep + b + sep + c + sep + d
  {
    assert [a, b][..1] == [a];
    assert [a, b, c][..2] == [a, b];
    assert [a, b, c, d][..3] == [a, b, c];
    assert Join([a, b], sep) == a + sep + b;
    assert Join([a, b, c], sep) == a + sep + b + sep + c;
  }

  /** Applies `f` to every element, keeping the order. */
  function MapText<T>(xs: seq<T>, f: T -> string): (r: seq<string>)
    ensures |r| == |xs|
    ensures forall i :: 0 <= i < |xs| ==> r[i] == f(xs[i])
  {
    seq(|xs|, i requires 0 <= i < |xs| => f(xs[i]))
  }

  // ---------------------------------------------------------------------------
  // Decimal rendering (`format!("{}", n)` for an unsigned index)
  // ---------------------------------------------------------------------------

  predicate IsDigit(c: char) { '0' <= c <= '9' }

  function DigitChar(d: nat): (c: char)
    requires d < 10
    ensures IsDigit(c) && (c as int) - ('0' as int) == d
  {
    (('0' as int) + d) as char
  }

  /** The decimal digits of `n`, most significant first, without leading zeros. */
  function NatToString(n: nat): (s: string)
    ensures |s| >= 1
    ensures forall i :: 0 <= i < |s| ==> IsDigit(s[i])
    decreases n
  {
    if n < 10 then [DigitChar(n)] else NatToString(n / 10) + [DigitChar(n % 10)]
  }

  /** The number a string of decimal digits denotes. */
  function DigitsValue(s: string): nat
    requires forall i :: 0 <= i < |s| ==> IsDigit(s[i])
    decreases |s|
  {
    if |s| == 0 then 0
    else
      assert IsDigit(s[|s| - 1]);
      DigitsValue(s[..|s| - 1]) * 10 + ((s[|s| - 1] as int) - ('0' as int))
  }

  /** Reading the rendered digits back gives the number: the rendering loses nothing. */
  lemma {:induction false} NatToStringRoundTrip(n: nat)
    ensures DigitsValue(NatToString(n)) == n
    decreases n
  {
    if n >= 10 {
      NatToStringRoundTrip(n / 10);
      var s := NatToString(n);
      assert s[..|s| - 1] == NatToString(n / 10);
    }
  }

  /** Distinct numbers render as distinct strings. */
  lemma NatToStringInjective(m: nat, n: nat)
    requires NatToString(m) == NatToString(n)
    ensures m == n
  {
    NatToStringRoundTrip(m);
    NatToStringRoundTrip(n);
  }

  // ---------------------------------------------------------------------------
  // Placeholders
  // ---------------------------------------------------------------------------

  /** The number of `?` marks in `s`. */
  function Marks(s: string): nat
    decreases |s|
  {
    if |s| == 0 then 0 else (if s[0] == '?' then 1 else 0) + Marks(s[1..])
  }

  /** Text holding no `?` mark. */
  predicate Unmarked(s: string)
  {
    '?' !in s
  }

  /** Unmarked text has no marks to count. */
  lemma {:induction false} NoMarks(s: string)
    requires Unmarked(s)
    ensures Marks(s) == 0
    decreases |s|
  {
    if |s| > 0 {
      assert s[0] in s;
      assert forall c :: c in s[1..] ==> c in s;
      NoMarks(s[1..]);
    }
  }

  /** Marks add up over concatenation. */
  lemma {:induction false} MarksAppend(a: string, b: string)
    ensures Marks(a + b) == Marks(a) + Marks(b)
    decreases |a|
  {
    if |a| == 0 {
      assert a + b == b;
    } else {
      assert (a + b)[1..] == a[1..] + b;
      MarksAppend(a[1..], b);
    }
  }

  /** Unmarked text around a fragment adds no marks. */
  lemma MarksWrapped(pre: string, mid: string, post: string)
    requires Unmarked(pre) && Unmarked(post)
    ensures Marks(pre + mid + post) == Marks(mid)
  {
    NoMarks(pre);
    NoMarks(post);
    MarksAppend(pre, mid);
    MarksAppend(pre + mid, post);
  }

  /** Unmarked text around and between two fragments adds no marks. */
  lemma MarksBinary(pre: string, l: string, mid: string, r: string, post: string)
    requires Unmarked(pre) && Unmarked(mid) && Unmarked(post)
    ensures Marks(pre + l + mid + r + post) == Marks(l) + Marks(r)
  {
    MarksWrapped(pre, l, mid);
    MarksAppend(pre + l + mid, r + post);
    MarksAppend(r, post);
    NoMarks(post);
    assert pre + l + mid + r + post == (pre + l + mid) + (r + post);
  }

  /** A rendered number never contains a `?`. */
  lemma NatToStringUnmarked(n: nat)
    ensures Unmarked(NatToString(n))
  {
    var s := NatToString(n);
    forall i | 0 <= i < |s| ensures s[i] != '?' { assert IsDigit(s[i]); }
  }

  /**
    Replaces the marks of `s`, left to right, by the strings of `ps`, the way a
    backend binds anonymous parameters positionally. Marks left over once `ps` is
    used up stay as they are.
   */
  function Substitute(s: string, ps: seq<string>): string
    decreases |s|
  {
    if |s| == 0 then ""
    else if s[0] == '?' && |ps| > 0 then ps[0] + Substitute(s[1..], ps[1..])
    else [s[0]] + Substitute(s[1..], ps)
  }

  /** Text without marks is left alone, whatever the parameters. */
  lemma {:induction false} SubstituteUnmarked(s: string, ps: seq<string>)
    requires Unmarked(s)
    ensures Substitute(s, ps) == s
    decreases |s|
  {
    if |s| > 0 {
      assert s[0] in s;
      assert forall c :: c in s[1..] ==> c in s;
      SubstituteUnmarked(s[1..], ps);
    }
  }

  /**
    When `a` holds exactly |p| marks, substituting `p + q` into `a + b` uses `p`
    up on `a` and hands `q` on to `b`.
   */
  lemma {:induction false} SubstituteAppend(a: string, b: string, p: seq<string>, q: seq<string>)
    requires Marks(a) == |p|
    ensures Substitute(a + b, p + q) == Substitute(a, p) + Substitute(b, q)
    decreases |a|
  {
    if |a| == 0 {
      assert a + b == b;
      assert p + q == q;
    } else {
      assert (a + b)[0] == a[0];
      assert (a + b)[1..] == a[1..] + b;
      if a[0] == '?' {
        assert (p + q)[0] == p[0];
        assert (p + q)[1..] == p[1..] + q;
        SubstituteAppend(a[1..], b, p[1..], q);
      } else {
        SubstituteAppend(a[1..], b, p, q);
      }
    }
  }

  /** Substituting no parameters changes nothing: every mark stays. */
  lemma {:induction false} SubstituteNothing(s: string)
    ensures Substitute(s, []) == s
    decreases |s|
  {
    if |s| > 0 {
      SubstituteNothing(s[1..]);
      assert [s[0]] + s[1..] == s;
    }
  }

  /** An unmarked prefix is copied, and the parameters all go to what follows it. */
  lemma {:induction false} SubstitutePrefix(a: string, b: string, ps: seq<string>)
    requires Unmarked(a)
    ensures Substitute(a + b, ps) == a + Substitute(b, ps)
    decreases |a|
  {
    if |a| == 0 {
      assert a + b == b;
    } else {
      assert a[0] in a;
      assert forall c :: c in a[1..] ==> c in a;
      assert (a + b)[0] == a[0];
      assert (a + b)[1..] == a[1..] + b;
      SubstitutePrefix(a[1..], b, ps);
      assert [a[0]] + (a[1..] + Substitute(b, ps)) == a + Substitute(b, ps);
    }
  }

  /** When `a` holds exactly |ps| marks, the parameters are used up on `a` and what follows is copied. */
  lemma SubstituteSuffix(a: string, b: string, ps: seq<string>)
    requires Marks(a) == |ps|
    ensures Substitute(a + b, ps) == Substitute(a, ps) + b
  {
    SubstituteAppend(a, b, ps, []);
    assert ps + [] == ps;
    SubstituteNothing(b);
  }

  /** A fragment wrapped in unmarked text receives the parameters alone. */
  lemma SubstituteWrapped(pre: string, mid: string, post: string, ps: seq<string>)
    requires Unmarked(pre) && Marks(mid) == |ps|
    ensures Substitute(pre + mid + post, ps) == pre + Substitute(mid, ps) + post
  {
    var tail := mid + post;
    assert pre + mid + post == pre + tail;
    SubstitutePrefix(pre, tail, ps);
    SubstituteSuffix(mid, post, ps);
    Assoc3(pre, Substitute(mid, ps), post);
  }

  /** Regrouping three strings. */
  lemma Assoc3(a: string, b: string, c: string)
    ensures a + (b + c) == a + b + c
  {
  }

  /** Regrouping five strings split after the third. */
  lemma Assoc5(a: string, b: string, c: string, d: string, e: string)
    ensures (a + b + c) + (d + e) == a + b + c + d + e
  {
  }

  /** Two fragments wrapped in unmarked text receive their own parameters, in order. */
  lemma SubstituteBinary(pre: string, l: string, mid: string, r: string, post: string,
                         lp: seq<string>, rp: seq<string>)
    requires Unmarked(pre) && Unmarked(mid) && Unmarked(post)
    requires Marks(l) == |lp| && Marks(r) == |rp|
    ensures Substitute(pre + l + mid + r + post, lp + rp)
         == pre + Substitute(l, lp) + mid + Substitute(r, rp) + post
  {
    var left := pre + l + mid;
    var right := r + post;
    Assoc5(pre, l, mid, r, post);
    MarksWrapped(pre, l, mid);
    SubstituteAppend(left, right, lp, rp);
    var fl := Substitute(l, lp);
    var fr := Substitute(r, rp);
    SubstituteWrapped(pre, l, mid, lp);
    SubstituteSuffix(r, post, rp);
    Assoc5(pre, fl, mid, fr, post);
  }

  /** Filling a `head sets WHERE cond;` statement fills the SET list and then the condition. */
  lemma SubstituteWhere(head: string, sets: string, cond: string, sp: seq<string>, cp: seq<string>,
                        filledSets: string, filledCond: string)
    requires Unmarked(head) && Marks(sets) == |sp| && Marks(cond) == |cp|
    requires Substitute(sets, sp) == filledSets && Substitute(cond, cp) == filledCond
    ensures Substitute(head + sets + " WHERE " + cond + ";", sp + cp) == head + filledSets + " WHERE " + filledCond + ";"
  {
    WhereUnmarked();
    SubstituteBinary(head, sets, " WHERE ", cond, ";", sp, cp);
  }

  /** The text between a SET list and its condition, and the statement's end, hold no mark. */
  lemma WhereUnmarked()
    ensures Unmarked(" WHERE ") && Unmarked(";")
  {
  }

  /** A field text followed by one mark takes the one parameter in the mark's place. */
  lemma SubstituteTrailingMark(pre: string, p: string)
    requires Unmarked(pre)
    ensures Marks(pre + "?") == 1
    ensures Substitute(pre + "?", [p]) == pre + p
  {
    var mark := "?";
    assert Marks(mark) == 1;
    assert Substitute(mark, [p]) == p;
    MarksWrapped(pre, mark, "");
    SubstituteWrapped(pre, mark, "", [p]);
    assert pre + mark + "" == pre + mark;
  }

  // ---------------------------------------------------------------------------
  // Marks of joined lists
  // ---------------------------------------------------------------------------

  /** Joining unmarked parts with an unmarked separator gives unmarked text. */
  lemma {:induction false} JoinUnmarked(parts: seq<string>, sep: string)
    requires Unmarked(sep)
    requires forall i :: 0 <= i < |parts| ==> Unmarked(parts[i])
    ensures Unmarked(Join(parts, sep))
    decreases |parts|
  {
    if |parts| >= 2 {
      JoinUnmarked(parts[..|parts| - 1], sep);
    }
  }

  /** Joining parts that hold one mark each gives as many marks as parts. */
  lemma {:induction false} JoinOneMarkEach(parts: seq<string>, sep: string)
    requires Unmarked(sep)
    requires forall i :: 0 <= i < |parts| ==> Marks(parts[i]) == 1
    ensures Marks(Join(parts, sep)) == |parts|
    decreases |parts|
  {
    if |parts| >= 2 {
      var init := parts[..|parts| - 1];
      JoinOneMarkEach(init, sep);
      MarksBinary("", Join(init, sep), sep, parts[|parts| - 1], "");
      assert "" + Join(init, sep) + sep + parts[|parts| - 1] + "" == Join(parts, sep);
    }
  }

  /** The i-th parameter substituted into the i-th part. */
  function FillEach(parts: seq<string>, ps: seq<string>): (r: seq<string>)
    requires |ps| == |parts|
    ensures |r| == |parts|
    ensures forall i :: 0 <= i < |parts| ==> r[i] == Substitute(parts[i], [ps[i]])
  {
    seq(|parts|, i requires 0 <= i < |parts| => Substitute(parts[i], [ps[i]]))
  }

  /**
    Substituting into a joined list of one-mark parts substitutes the i-th
    parameter into the i-th part.
   */
  lemma {:induction false} SubstituteJoin(parts: seq<string>, sep: string, ps: seq<string>)
    requires Unmarked(sep)
    requires forall i :: 0 <= i < |parts| ==> Marks(parts[i]) == 1
    requires |ps| == |parts|
    ensures Substitute(Join(parts, sep), ps) == Join(FillEach(parts, ps), sep)
    decreases |parts|
  {
    if |parts| == 1 {
      assert ps == [ps[0]];
    } else if |parts| >= 2 {
      var n := |parts| - 1;
      var init, last := parts[..n], parts[n];
      var pInit, pLast := ps[..n], ps[n];
      SubstituteJoin(init, sep, pInit);
      JoinOneMarkEach(init, sep);
      assert ps == pInit + [pLast];
      assert Join(parts, sep) == Join(init, sep) + (sep + last);
      SubstituteAppend(Join(init, sep), sep + last, pInit, [pLast]);
      NoMarks(sep);
      SubstituteAppend(sep, last, [], [pLast]);
      SubstituteUnmarked(sep, []);
      assert [] + [pLast] == [pLast];
      var done := FillEach(parts, ps);
      assert done[..n] == FillEach(init, pInit);
      assert Join(done, sep) == Join(done[..n], sep) + sep + done[n];
    }
  }
}
