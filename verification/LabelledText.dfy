/** Texts made of fields with a label between any two: `f0 L0 f1 L1 f2 ...`. Every label is a newline
    followed by some text without one. When can the fields be read back from the text? */
module LabelledText {

  predicate IsLabel(tag: string) {
    tag != [] && tag[0] == '\n' && '\n' !in tag[1..]
  }

  predicate Apart(k: string, l: string) {
    !(k <= l) && !(l <= k)
  }

  ghost predicate Labels(labels: seq<string>) {
    && (forall i | 0 <= i < |labels| :: IsLabel(labels[i]))
    && (forall i | 0 < i < |labels| :: Apart(labels[i - 1], labels[i]))
  }

  ghost predicate Within(tag: string, s: string) {
    exists a: string :: a + tag <= s
  }

  function LaidOut(fields: seq<string>, labels: seq<string>): string
    requires |fields| == |labels| + 1
    decreases |labels|
  {
    if labels == [] then fields[0] else fields[0] + labels[0] + LaidOut(fields[1..], labels[1..])
  }

  /** The i-th label occurs in one of the two fields it stands between. */
  ghost predicate Blurred(fields: seq<string>, labels: seq<string>, i: nat)
    requires |fields| == |labels| + 1
  {
    i < |labels| && (Within(labels[i], fields[i]) || Within(labels[i], fields[i + 1]))
  }

  /** No label occurs in either of the two fields it stands between. */
  ghost predicate Clean(fields: seq<string>, labels: seq<string>)
    requires |fields| == |labels| + 1
  {
    forall i: nat :: !Blurred(fields, labels, i)
  }

  lemma CleanTail(fields: seq<string>, labels: seq<string>)
    requires |fields| == |labels| + 1 && labels != [] && Labels(labels) && Clean(fields, labels)
    ensures Labels(labels[1..]) && Clean(fields[1..], labels[1..])
  {
    var ls := labels[1..];
    assert forall i | 0 <= i < |ls| :: ls[i] == labels[i + 1];
    forall i: nat ensures !Blurred(fields[1..], ls, i) {
      assert !Blurred(fields, labels, i + 1);
    }
  }

  // ----- Clean fields can be read back -----

  /** Inside a label there is no newline. */
  lemma InsideLabel(t: string, y: string, k: string, i: int)
    requires IsLabel(k) && y + k <= t && |y| < i < |y| + |k|
    ensures t[i] != '\n'
  {
    assert t[i] == (y + k)[i] == k[1..][i - |y| - 1];
  }

  lemma InField(t: string, u: string, y: string, k: string)
    requires u <= t && y + k <= t && |y| + |k| <= |u|
    ensures Within(k, u)
  {
    assert y + k <= u;
  }

  lemma LabelStart(t: string, y: string, k: string)
    requires IsLabel(k) && y + k <= t
    ensures t[|y|] == '\n'
  {
    assert t[|y|] == (y + k)[|y|];
  }

  lemma NoLabelWithin(tag: string, s: string)
    requires IsLabel(tag) && '\n' !in s
    ensures !Within(tag, s)
  {
    if Within(tag, s) {
      var a: string :| a + tag <= s;
      LabelStart(s, a, tag);
      assert false;
    }
  }

  /** A label in a text that begins with a field and a label of its own: unless it is that very
      label, it begins after it. */
  lemma PlaceIn(t: string, u: string, l: string, y: string, k: string)
    requires u + l <= t && y + k <= t && IsLabel(k) && IsLabel(l) && !Within(k, u)
    ensures |y| == |u| || |y| >= |u| + |l|
  {
    LabelStart(t, u, l);
    LabelStart(t, y, k);
    if |y| < |u| {
      if |y| + |k| <= |u| {
        InField(t, u, y, k);
      } else {
        InsideLabel(t, y, k, |u|);
      }
      assert false;
    } else if |u| < |y| < |u| + |l| {
      InsideLabel(t, u, l, |y|);
      assert false;
    }
  }

  lemma Place(u: string, l: string, v: string, y: string, k: string, z: string)
    requires u + l + v == y + k + z && IsLabel(k) && IsLabel(l) && !Within(k, u) && (k == l || Apart(k, l))
    ensures (k == l && u == y && v == z) || (|y| >= |u| + |l| && y[..|u| + |l|] == u + l && v == y[|u| + |l|..] + k + z)
  {
    var t := u + l + v;
    assert t == y + k + z;
    PlaceIn(t, u, l, y, k);
    if |y| == |u| {
      assert u == t[..|u|] && y == t[..|y|];
      SameStart(t[|u|..], l, v, k, z);
    } else {
      var n := |u| + |l|;
      assert y[..n] == t[..n] == u + l;
      assert v == t[n..] == y[n..] + k + z;
    }
  }

  lemma SameStart(t: string, l: string, v: string, k: string, z: string)
    requires t == l + v && t == k + z && (k == l || Apart(k, l))
    ensures k == l && v == z
  {
    assert l == t[..|l|] && k == t[..|k|];
    assert v == t[|l|..] && z == t[|k|..];
  }

  /** A reading of clean fields that is late for one label is late for all the others. */
  lemma {:induction false} Late(f: seq<string>, g: seq<string>, labels: seq<string>, k: string, y: string)
    requires |f| == |g| == |labels| + 1 && Labels([k] + labels) && Clean(f, labels)
    requires !Within(k, f[0])
    ensures LaidOut(f, labels) != y + k + LaidOut(g, labels)
    decreases |labels|
  {
    assert IsLabel(([k] + labels)[0]);
    if labels == [] {
      var s, z := f[0], g[0];
      if s == y + k + z {
        InField(s, s, y, k);
        assert false;
      }
    } else {
      LateStep(f, g, labels, k, y);
    }
  }

  lemma {:induction false} LateStep(f: seq<string>, g: seq<string>, labels: seq<string>, k: string, y: string)
    requires |f| == |g| == |labels| + 1 && labels != [] && Labels([k] + labels) && Clean(f, labels)
    requires !Within(k, f[0])
    ensures LaidOut(f, labels) != y + k + LaidOut(g, labels)
    decreases |labels|, 0
  {
    var l, ls, later := labels[0], labels[1..], LaidOut(g[1..], labels[1..]);
    FirstLabels(k, labels);
    CleanTail(f, labels);
    assert !Blurred(f, labels, 0);
    if LaidOut(f, labels) == y + k + LaidOut(g, labels) {
      Place(f[0], l, LaidOut(f[1..], ls), y, k, LaidOut(g, labels));
      var y' := y[|f[0]| + |l|..];
      assert LaidOut(f[1..], ls) == y' + k + (g[0] + l + later) == (y' + k + g[0]) + l + later;
      Late(f[1..], g[1..], ls, l, y' + k + g[0]);
      assert false;
    }
  }

  lemma FirstLabels(k: string, labels: seq<string>)
    requires labels != [] && Labels([k] + labels)
    ensures IsLabel(k) && IsLabel(labels[0]) && Apart(k, labels[0])
    ensures Labels(labels) && labels == [labels[0]] + labels[1..]
  {
    var all := [k] + labels;
    assert all[0] == k && forall i | 0 <= i < |labels| :: labels[i] == all[i + 1];
    assert Apart(all[0], all[1]);
  }

  lemma {:induction false} CleanReadBack(f: seq<string>, g: seq<string>, labels: seq<string>)
    requires |f| == |g| == |labels| + 1 && Labels(labels) && Clean(f, labels)
    requires LaidOut(f, labels) == LaidOut(g, labels)
    ensures f == g
    decreases |labels|
  {
    assert f == [f[0]] + f[1..] && g == [g[0]] + g[1..];
    if labels != [] {
      var l, n := labels[0], |f[0]| + |labels[0]|;
      CleanTail(f, labels);
      assert !Blurred(f, labels, 0);
      Place(f[0], l, LaidOut(f[1..], labels[1..]), g[0], l, LaidOut(g[1..], labels[1..]));
      if f[0] == g[0] && LaidOut(f[1..], labels[1..]) == LaidOut(g[1..], labels[1..]) {
        CleanReadBack(f[1..], g[1..], labels[1..]);
      } else {
        assert [l] + labels[1..] == labels;
        Late(f[1..], g[1..], labels[1..], l, g[0][n..]);
      }
    }
  }

  // ----- Others cannot -----

  lemma LaidOutPrefix(p: string, f: seq<string>, labels: seq<string>)
    requires |f| == |labels| + 1
    ensures LaidOut(f[0 := p + f[0]], labels) == p + LaidOut(f, labels)
  {
    assert f[0 := p + f[0]][1..] == f[1..];
  }

  /** A label inside a field can be taken for the one that ends the field. */
  lemma {:induction false} MoveCut(f: seq<string>, labels: seq<string>, i: nat, a: string, b: string)
    requires |f| == |labels| + 1 && i < |labels| && f[i] == a + labels[i] + b
    ensures LaidOut(f[i := a][i + 1 := b + labels[i] + f[i + 1]], labels) == LaidOut(f, labels)
    decreases |labels|
  {
    var g := f[i := a][i + 1 := b + labels[i] + f[i + 1]];
    if i == 0 {
      var p := b + labels[0];
      assert g[1..] == f[1..][0 := p + f[1..][0]];
      LaidOutPrefix(p, f[1..], labels[1..]);
    } else {
      MoveCut(f[1..], labels[1..], i - 1, a, b);
      assert g[1..] == f[1..][i - 1 := a][i := b + labels[i] + f[i + 1]];
    }
  }

  /** Where a label occurs in a field next to it, other fields have the same text; they differ only
      in the two fields around that label. */
  lemma Ambiguous(f: seq<string>, labels: seq<string>, i: nat) returns (g: seq<string>)
    requires |f| == |labels| + 1 && Blurred(f, labels, i) && labels[i] != []
    ensures |g| == |f| && LaidOut(g, labels) == LaidOut(f, labels) && g[i] != f[i]
    ensures forall k | 0 <= k < |f| && k != i && k != i + 1 :: g[k] == f[k]
  {
    var l := labels[i];
    if Within(l, f[i]) {
      var a: string :| a + l <= f[i];
      var b := f[i][|a + l|..];
      assert f[i] == a + l + b;
      g := f[i := a][i + 1 := b + l + f[i + 1]];
      MoveCut(f, labels, i, a, b);
    } else {
      var a: string :| a + l <= f[i + 1];
      var b := f[i + 1][|a + l|..];
      assert f[i + 1] == a + l + b;
      g := f[i := f[i] + l + a][i + 1 := b];
      MoveCut(g, labels, i, f[i], a);
      assert g[i := f[i]][i + 1 := a + l + b] == f;
    }
  }
}
