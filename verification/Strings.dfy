/** The few string operations the models need: ASCII lower case, stripping of
    blanks, and Python's order on strings. */
module Strings {
  function LowerChar(ch: char): char {
    if 'A' <= ch <= 'Z' then ((ch as int) + 32) as char else ch
  }

  function Lower(s: string): string {
    seq(|s|, i requires 0 <= i < |s| => LowerChar(s[i]))
  }

  /** What Python's `str.isspace` accepts. */
  predicate IsSpace(ch: char) {
    || '\t' <= ch <= '\r' || '\U{1C}' <= ch <= ' ' || '\U{2000}' <= ch <= '\U{200A}'
    || ch in {'\U{85}', '\U{A0}', '\U{1680}', '\U{2028}', '\U{2029}', '\U{202F}', '\U{205F}', '\U{3000}'}
  }

  function Strip(s: string): string {
    if s == "" then ""
    else if IsSpace(s[0]) then Strip(s[1..])
    else if IsSpace(s[|s| - 1]) then Strip(s[..|s| - 1])
    else s
  }

  function NonBlank(lines: seq<string>): seq<string> {
    if lines == [] then []
    else (if Strip(lines[0]) == "" then [] else [Strip(lines[0])]) + NonBlank(lines[1..])
  }

  // ----- What stripping leaves -----

  ghost predicate AllSpace(s: string) {
    forall i | 0 <= i < |s| :: IsSpace(s[i])
  }

  ghost predicate Trimmed(s: string) {
    s != "" && !IsSpace(s[0]) && !IsSpace(s[|s| - 1])
  }

  /** Stripping removes blanks at both ends, and nothing but blanks. */
  lemma {:induction false} StripSplits(s: string) returns (front: string, back: string)
    ensures s == front + Strip(s) + back && AllSpace(front) && AllSpace(back)
    ensures if AllSpace(s) then Strip(s) == "" else Trimmed(Strip(s))
    decreases |s|
  {
    hide *;
    StripOnce(s);
    if s != "" && IsSpace(s[0]) {
      front, back := StripSplits(s[1..]);
      WithFirst(s, front, Strip(s), back);
      front := [s[0]] + front;
    } else if s != "" && IsSpace(s[|s| - 1]) {
      front, back := StripSplits(s[..|s| - 1]);
      WithLast(s, front, Strip(s), back);
      back := back + [s[|s| - 1]];
    } else {
      front, back := "", "";
      Untouched(s);
    }
  }

  lemma {:induction false} StripOnce(s: string)
    ensures if s != "" && IsSpace(s[0]) then Strip(s) == Strip(s[1..])
            else if s != "" && IsSpace(s[|s| - 1]) then Strip(s) == Strip(s[..|s| - 1])
            else Strip(s) == s
  {
    hide IsSpace;
  }

  lemma {:induction false} Untouched(s: string)
    requires s == "" || (!IsSpace(s[0]) && !IsSpace(s[|s| - 1]))
    ensures AllSpace("") && (if AllSpace(s) then s == "" else Trimmed(s))
    ensures s == "" + s + ""
  {
    hide IsSpace;
  }

  lemma {:induction false} WithFirst(s: string, front: string, core: string, back: string)
    requires s != "" && IsSpace(s[0]) && s[1..] == front + core + back && AllSpace(front)
    ensures s == [s[0]] + front + core + back && AllSpace([s[0]] + front)
    ensures AllSpace(s) <==> AllSpace(s[1..])
  {
    hide IsSpace;
    assert s == [s[0]] + s[1..];
    assert forall i | 0 < i < |s| :: s[i] == s[1..][i - 1];
  }

  lemma {:induction false} WithLast(s: string, front: string, core: string, back: string)
    requires s != "" && IsSpace(s[|s| - 1]) && s[..|s| - 1] == front + core + back && AllSpace(back)
    ensures s == front + core + (back + [s[|s| - 1]]) && AllSpace(back + [s[|s| - 1]])
    ensures AllSpace(s) <==> AllSpace(s[..|s| - 1])
  {
    hide IsSpace;
    assert s == s[..|s| - 1] + [s[|s| - 1]];
  }

  lemma {:induction false} StripOf(front: string, core: string, back: string)
    requires AllSpace(front) && AllSpace(back) && Trimmed(core)
    ensures Strip(front + core + back) == core
    decreases |front| + |back|
  {
    var s := front + core + back;
    if front != "" {
      assert s[1..] == front[1..] + core + back;
      StripOf(front[1..], core, back);
    } else if back != "" {
      var n := |back| - 1;
      assert s[..|s| - 1] == front + core + back[..n];
      assert s[0] == core[0] && s[|s| - 1] == back[n];
      StripOf(front, core, back[..n]);
    } else {
      assert s == core;
    }
  }

  /** `a <= b` on strings, code point by code point. */
  predicate LexLeq(a: string, b: string) {
    if a == "" then true
    else if b == "" then false
    else a[0] < b[0] || (a[0] == b[0] && LexLeq(a[1..], b[1..]))
  }

  lemma {:induction false} LexTotal(a: string, b: string)
    ensures LexLeq(a, b) || LexLeq(b, a)
    ensures LexLeq(a, b) && LexLeq(b, a) ==> a == b
  {
    if a != "" && b != "" {
      LexTotal(a[1..], b[1..]);
      assert a == [a[0]] + a[1..] && b == [b[0]] + b[1..];
    }
  }

  lemma {:induction false} LexTransitive(a: string, b: string, c: string)
    requires LexLeq(a, b) && LexLeq(b, c)
    ensures LexLeq(a, c)
  {
    if a != "" && a[0] == b[0] == c[0] {
      LexTransitive(a[1..], b[1..], c[1..]);
    }
  }

  /** `a < b`: a proper beginning, or the smaller character where the two first differ. */
  ghost predicate Precedes(a: string, b: string) {
    (a <= b && a != b) || exists k: nat :: DiffersAt(a, b, k) && a[k] < b[k]
  }

  ghost predicate DiffersAt(a: string, b: string, k: nat) {
    k < |a| && k < |b| && a[..k] == b[..k] && a[k] != b[k]
  }

  lemma {:induction false} FirstSame(a: string, b: string, k: nat)
    requires DiffersAt(a, b, k)
    ensures k > 0 ==> a[0] == b[0]
  {
    if k > 0 {
      assert a[..k][0] == b[..k][0];
    }
  }

  lemma {:induction false} DiffersRest(a: string, b: string, k: nat)
    requires a != "" && b != "" && a[0] == b[0]
    ensures DiffersAt(a[1..], b[1..], k) <==> DiffersAt(a, b, k + 1)
  {
    if k < |a| - 1 && k < |b| - 1 {
      assert a[..k + 1] == [a[0]] + a[1..][..k] && b[..k + 1] == [b[0]] + b[1..][..k];
      assert a[1..][..k] == a[..k + 1][1..] && b[1..][..k] == b[..k + 1][1..];
    }
  }

  lemma {:induction false} PrecedesRest(a: string, b: string)
    requires a != "" && b != "" && a[0] == b[0]
    ensures Precedes(a, b) <==> Precedes(a[1..], b[1..])
  {
    hide DiffersAt;
    assert a == [a[0]] + a[1..] && b == [b[0]] + b[1..];
    NotAtFirst(a, b);
    if k: nat :| DiffersAt(a, b, k) && a[k] < b[k] {
      DiffersRest(a, b, k - 1);
    }
    if k: nat :| DiffersAt(a[1..], b[1..], k) && a[1..][k] < b[1..][k] {
      DiffersRest(a, b, k);
    }
  }

  lemma {:induction false} NotAtFirst(a: string, b: string)
    requires a != "" && b != "" && a[0] == b[0]
    ensures !DiffersAt(a, b, 0)
    ensures forall k: nat | DiffersAt(a, b, k) :: k < |a| && k < |b|
    ensures forall k: nat | DiffersAt(a[1..], b[1..], k) :: k < |a| - 1 && k < |b| - 1
  {
  }

  lemma {:induction false} LexIff(a: string, b: string)
    ensures LexLeq(a, b) <==> a == b || Precedes(a, b)
  {
    if a != "" && b != "" && a[0] == b[0] {
      hide Precedes;
      LexIff(a[1..], b[1..]);
      PrecedesRest(a, b);
      assert a == [a[0]] + a[1..] && b == [b[0]] + b[1..];
    } else if a != "" && b != "" {
      forall k: nat | DiffersAt(a, b, k) ensures k == 0 {
        FirstSame(a, b, k);
      }
      assert a[0] < b[0] ==> DiffersAt(a, b, 0);
    }
  }

  lemma {:induction false} LexOrder(a: string, b: string)
    requires LexLeq(a, b)
    ensures !Precedes(b, a)
  {
    LexTotal(a, b);
    LexIff(b, a);
  }
}
