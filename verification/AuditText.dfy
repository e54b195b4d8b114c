/** What an audit entry's hash covers: the seven labelled lines it is computed from, and exactly when
    that text can belong to one entry only. */
module AuditText {
  import opened Texts
  import opened LabelledText

  /** A detail payload as the database keeps it. */
  datatype Json =
    | Null
    | Bool(flag: bool)
    | Number(number: real)
    | Text(text: string)
    | Array(items: seq<Json>)
    | Object(fields: map<string, Json>)

  /** The library functions the log relies on: SHA-256 in hexadecimal, the printing of a timestamp
      of microsecond precision, and the printing of a payload with sorted keys. */
  datatype Library = Library(hash: string -> string, stamp: int -> string, render: Json -> string)

  /** The hash is collision-free, timestamps print differently, and neither prints a newline. */
  ghost predicate Sound(l: Library) {
    && (forall s, t :: l.hash(s) == l.hash(t) ==> s == t)
    && (forall s :: '\n' !in l.hash(s))
    && (forall s, t :: l.stamp(s) == l.stamp(t) ==> s == t)
    && (forall s :: '\n' !in l.stamp(s))
  }

  datatype Entry = Entry(
    sequence: int, createdAt: int, actor: string, action: string, target: string,
    detail: Json, detailHash: string, prevHash: string, entryHash: string, redacted: bool)

  // ----- What is hashed -----

  datatype Hashed = Hashed(
    sequence: int, createdAt: int, actor: string, action: string, target: string,
    detailHash: string, prevHash: string)

  function HashedPart(e: Entry): Hashed {
    Hashed(e.sequence, e.createdAt, e.actor, e.action, e.target, e.detailHash, e.prevHash)
  }

  /** The text that is hashed: seven labelled lines. */
  function CanonicalSerialize(l: Library, h: Hashed): string {
    ("SEQ:" + Decimal(h.sequence)) + ['\n'] + (
    ("TS:" + l.stamp(h.createdAt)) + ['\n'] + (
    ("ACTOR:" + h.actor) + ['\n'] + (
    ("ACTION:" + h.action) + ['\n'] + (
    ("TARGET:" + h.target) + ['\n'] + (
    ("DETAIL_HASH:" + h.detailHash) + ['\n'] +
    ("PREV_HASH:" + h.prevHash))))))
  }

  // ----- When the text determines what was hashed -----

  const LABELS: seq<string> := ["\nACTION:", "\nTARGET:", "\nDETAIL_HASH:", "\nPREV_HASH:"]

  /** The fields that are free text. */
  function Fields(h: Hashed): seq<string> {
    [h.actor, h.action, h.target, h.detailHash, h.prevHash]
  }

  /** The free fields between their labels. */
  function FreeText(h: Hashed): string {
    LaidOut(Fields(h), LABELS)
  }

  lemma LabelsApart()
    ensures Labels(LABELS)
  {
    LabelOf("ACTION:", LABELS[0]);
    LabelOf("TARGET:", LABELS[1]);
    LabelOf("DETAIL_HASH:", LABELS[2]);
    LabelOf("PREV_HASH:", LABELS[3]);
  }

  lemma LabelOf(name: string, tag: string)
    requires name != [] && '\n' !in name && tag == ['\n'] + name
    ensures IsLabel(tag) && tag[1] == name[0]
  {
    assert tag[1..] == name;
  }

  lemma LaidOutFrom(f: seq<string>, labels: seq<string>, i: nat)
    requires |f| == |labels| + 1 && i < |labels|
    ensures LaidOut(f[i..], labels[i..]) == f[i] + labels[i] + LaidOut(f[i + 1..], labels[i + 1..])
  {
    assert f[i..][1..] == f[i + 1..] && labels[i..][1..] == labels[i + 1..];
  }

  /** The text is two lines that never hold a newline, and the free fields between their labels. */
  lemma SerializeIsLaidOut(l: Library, h: Hashed)
    ensures CanonicalSerialize(l, h) ==
            ("SEQ:" + Decimal(h.sequence)) + ['\n'] + (("TS:" + l.stamp(h.createdAt)) + ['\n'] + ("ACTOR:" + FreeText(h)))
  {
    var f := Fields(h);
    LaidOutFrom(f, LABELS, 0);
    LaidOutFrom(f, LABELS, 1);
    LaidOutFrom(f, LABELS, 2);
    LaidOutFrom(f, LABELS, 3);
    assert f[0..] == f && LABELS[0..] == LABELS;
    Regroup(h.actor, h.action, h.target, h.detailHash, h.prevHash);
  }

  lemma Regroup(a: string, b: string, c: string, d: string, e: string)
    ensures ("ACTOR:" + a) + ['\n'] + (("ACTION:" + b) + ['\n'] + (("TARGET:" + c) + ['\n'] + (
              ("DETAIL_HASH:" + d) + ['\n'] + ("PREV_HASH:" + e))))
         == "ACTOR:" + (a + "\nACTION:" + (b + "\nTARGET:" + (c + "\nDETAIL_HASH:" + (d + "\nPREV_HASH:" + e))))
  {
    assert "\nACTION:" == ['\n'] + "ACTION:" && "\nTARGET:" == ['\n'] + "TARGET:";
    assert "\nDETAIL_HASH:" == ['\n'] + "DETAIL_HASH:" && "\nPREV_HASH:" == ['\n'] + "PREV_HASH:";
  }

  lemma SameLabel(tag: string, a: string, b: string)
    requires tag + a == tag + b
    ensures a == b
  {
    assert a == (tag + a)[|tag|..] && b == (tag + b)[|tag|..];
  }

  lemma LineClean(tag: string, s: string)
    requires '\n' !in tag && '\n' !in s
    ensures '\n' !in tag + s
  {
  }

  /** Equal texts have equal sequence numbers, equal timestamps, and equal texts of the free fields. */
  lemma SameText(l: Library, g: Hashed, h: Hashed)
    requires Sound(l)
    ensures CanonicalSerialize(l, g) == CanonicalSerialize(l, h) <==>
            g.sequence == h.sequence && g.createdAt == h.createdAt && FreeText(g) == FreeText(h)
  {
    SerializeIsLaidOut(l, g);
    SerializeIsLaidOut(l, h);
    if CanonicalSerialize(l, g) == CanonicalSerialize(l, h) {
      var p, q := "ACTOR:" + FreeText(g), "ACTOR:" + FreeText(h);
      LineClean("SEQ:", Decimal(g.sequence));
      LineClean("SEQ:", Decimal(h.sequence));
      LineClean("TS:", l.stamp(g.createdAt));
      LineClean("TS:", l.stamp(h.createdAt));
      SplitAtFirst("SEQ:" + Decimal(g.sequence), "SEQ:" + Decimal(h.sequence), '\n',
                   ("TS:" + l.stamp(g.createdAt)) + ['\n'] + p, ("TS:" + l.stamp(h.createdAt)) + ['\n'] + q);
      SplitAtFirst("TS:" + l.stamp(g.createdAt), "TS:" + l.stamp(h.createdAt), '\n', p, q);
      SameLabel("SEQ:", Decimal(g.sequence), Decimal(h.sequence));
      SameLabel("TS:", l.stamp(g.createdAt), l.stamp(h.createdAt));
      SameLabel("ACTOR:", FreeText(g), FreeText(h));
      DecimalInjective(g.sequence, h.sequence);
    }
  }

  function WithFields(h: Hashed, f: seq<string>): Hashed
    requires |f| == 5
  {
    h.(actor := f[0], action := f[1], target := f[2], detailHash := f[3], prevHash := f[4])
  }

  /** No free field holds the label of its own line, or of the next one, at the start of a line. */
  ghost predicate Unambiguous(h: Hashed) {
    Clean(Fields(h), LABELS)
  }

  lemma OtherFields(h: Hashed, i: nat) returns (f: seq<string>)
    requires Blurred(Fields(h), LABELS, i)
    ensures |f| == 5 && f != Fields(h) && LaidOut(f, LABELS) == FreeText(h)
    ensures i < 3 ==> f[4] == h.prevHash
  {
    LabelsApart();
    var labels := LABELS;
    assert IsLabel(labels[i]);
    f := Ambiguous(Fields(h), labels, i);
    assert f[i] != Fields(h)[i];
    assert Fields(h)[4] == h.prevHash;
  }

  /** Another entry with the same text: the boundary between two fields has moved. */
  lemma Confused(l: Library, h: Hashed, i: nat) returns (g: Hashed)
    requires Sound(l) && Blurred(Fields(h), LABELS, i)
    ensures g != h && CanonicalSerialize(l, g) == CanonicalSerialize(l, h)
    ensures g.sequence == h.sequence && g.createdAt == h.createdAt && (i < 3 ==> g.prevHash == h.prevHash)
  {
    var f := OtherFields(h, i);
    g := WithFields(h, f);
    assert Fields(g) == f;
    SameText(l, g, h);
  }

  lemma FieldsDecide(l: Library, g: Hashed, h: Hashed)
    requires Sound(l) && Unambiguous(h) && CanonicalSerialize(l, g) == CanonicalSerialize(l, h)
    ensures g == h
  {
    LabelsApart();
    SameText(l, g, h);
    CleanReadBack(Fields(h), Fields(g), LABELS);
    assert g == WithFields(g, Fields(g)) && h == WithFields(h, Fields(h));
  }

  /** The text belongs to no other entry exactly when the fields are unambiguous. */
  lemma SerializeUniqueIff(l: Library, h: Hashed)
    requires Sound(l)
    ensures (forall g :: CanonicalSerialize(l, g) == CanonicalSerialize(l, h) ==> g == h) <==> Unambiguous(h)
  {
    if Unambiguous(h) {
      forall g | CanonicalSerialize(l, g) == CanonicalSerialize(l, h) ensures g == h {
        FieldsDecide(l, g, h);
      }
    } else {
      var i: nat :| Blurred(Fields(h), LABELS, i);
      var g := Confused(l, h, i);
    }
  }

  // ----- Entries in a chain, whose previous hash is a hash -----

  lemma {:induction false} LaidOutSnoc(f: seq<string>, labels: seq<string>, tag: string, x: string)
    requires |f| == |labels| + 1
    ensures LaidOut(f + [x], labels + [tag]) == LaidOut(f, labels) + tag + x
    decreases |labels|
  {
    var g, ls := f + [x], labels + [tag];
    if labels == [] {
      assert g[1..] == [x] && ls[1..] == [];
    } else {
      assert g[1..] == f[1..] + [x] && ls[1..] == labels[1..] + [tag];
      LaidOutSnoc(f[1..], labels[1..], tag, x);
    }
  }

  /** A label before a last part without newlines is where the last newline is. */
  lemma SplitAtLast(a: string, b: string, tag: string, x: string, y: string)
    requires IsLabel(tag) && '\n' !in x && '\n' !in y && a + tag + x == b + tag + y
    ensures a == b && x == y
  {
    var s := a + tag + x;
    assert s == b + tag + y;
    LastNewline(a, tag, x);
    LastNewline(b, tag, y);
    assert |a| == |b|;
    assert a == s[..|a|] && b == s[..|b|];
    assert x == s[|a| + |tag|..] && y == s[|b| + |tag|..];
  }

  lemma LastNewline(a: string, tag: string, x: string)
    requires IsLabel(tag) && '\n' !in x
    ensures var s := a + tag + x; s[|a|] == '\n' && forall i | |a| < i < |s| :: s[i] != '\n'
  {
    var s := a + tag + x;
    forall i | |a| < i < |s| ensures s[i] != '\n' {
      if i < |a| + |tag| {
        assert s[i] == tag[1..][i - |a| - 1];
      } else {
        assert s[i] == x[i - |a| - |tag|];
      }
    }
  }

  /** The fields before the previous hash, and the labels between them. */
  function Front(h: Hashed): seq<string> {
    Fields(h)[..4]
  }

  const FRONT_LABELS: seq<string> := LABELS[..3]

  /** None of the first three labels occurs in a field beside it. */
  ghost predicate FrontUnambiguous(h: Hashed) {
    Clean(Front(h), FRONT_LABELS)
  }

  lemma FrontBlurred(h: Hashed, i: nat)
    requires i < 3
    ensures Blurred(Front(h), FRONT_LABELS, i) <==> Blurred(Fields(h), LABELS, i)
  {
  }

  lemma FreeTextSplit(h: Hashed)
    ensures FreeText(h) == LaidOut(Front(h), FRONT_LABELS) + LABELS[3] + h.prevHash
  {
    assert Fields(h) == Front(h) + [h.prevHash] && LABELS == FRONT_LABELS + [LABELS[3]];
    LaidOutSnoc(Front(h), FRONT_LABELS, LABELS[3], h.prevHash);
  }

  lemma FrontLabelsApart()
    ensures Labels(FRONT_LABELS) && IsLabel(LABELS[3])
  {
    LabelsApart();
    assert forall i | 0 <= i < 3 :: FRONT_LABELS[i] == LABELS[i];
  }

  /** Among entries whose previous hash holds no newline, the first three labels alone decide. */
  lemma FrontDecides(l: Library, g: Hashed, h: Hashed)
    requires Sound(l) && FrontUnambiguous(h) && '\n' !in g.prevHash && '\n' !in h.prevHash
    requires CanonicalSerialize(l, g) == CanonicalSerialize(l, h)
    ensures g == h
  {
    SameText(l, g, h);
    FreeTextSplit(g);
    FreeTextSplit(h);
    FrontLabelsApart();
    SplitAtLast(LaidOut(Front(g), FRONT_LABELS), LaidOut(Front(h), FRONT_LABELS), LABELS[3], g.prevHash, h.prevHash);
    CleanReadBack(Front(h), Front(g), FRONT_LABELS);
    assert Fields(g) == Front(g) + [g.prevHash] && Fields(h) == Front(h) + [h.prevHash];
    assert g == WithFields(g, Fields(g)) && h == WithFields(h, Fields(h));
  }

  // ----- A condition to check before logging -----

  /** What the three fields a caller supplies must not hold for the entry to be unambiguous. */
  ghost predicate Plain(actor: string, action: string, target: string) {
    && !Within("\nACTION:", actor) && !Within("\nACTION:", action)
    && !Within("\nTARGET:", action) && !Within("\nTARGET:", target)
    && !Within("\nDETAIL_HASH:", target)
  }

  lemma PlainIff(h: Hashed)
    requires '\n' !in h.detailHash
    ensures Plain(h.actor, h.action, h.target) <==> FrontUnambiguous(h)
  {
    FrontLabelsApart();
    NoLabelWithin(FRONT_LABELS[2], h.detailHash);
    var f, labels := Front(h), FRONT_LABELS;
    assert Clean(f, labels) <==> !Blurred(f, labels, 0) && !Blurred(f, labels, 1) && !Blurred(f, labels, 2);
  }

  /** In particular fields without newlines are plain. */
  lemma NewlineFreeIsPlain(actor: string, action: string, target: string)
    requires '\n' !in actor && '\n' !in action && '\n' !in target
    ensures Plain(actor, action, target)
  {
    LabelsApart();
    assert IsLabel(LABELS[0]) && IsLabel(LABELS[1]) && IsLabel(LABELS[2]);
    NoLabelWithin("\nACTION:", actor);
    NoLabelWithin("\nACTION:", action);
    NoLabelWithin("\nTARGET:", action);
    NoLabelWithin("\nTARGET:", target);
    NoLabelWithin("\nDETAIL_HASH:", target);
  }
}
