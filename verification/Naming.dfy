/** Names, label by label: which names a block covers, which zone a record's parent is, and
    when that zone is declared (covers of internal/dnsfile/policy.go, ParentZone and
    EnsureZone of zone.go). */
module Naming {
  import opened Platform
  import opened Text
  import opened Records
  import opened Entries
  import opened Edits
  import opened Reconcile
  import Writer

  // ----- labels -----

  /** The labels of a name, the texts between its dots. */
  function Labels(name: string): (labels: seq<string>)
    ensures |labels| >= 1
  {
    if name == "" then [""]
    else
      var rest := Labels(name[1..]);
      if name[0] == '.' then [""] + rest else [[name[0]] + rest[0]] + rest[1..]
  }

  function Dotted(labels: seq<string>): string
    requires labels != []
  {
    if |labels| == 1 then labels[0] else labels[0] + "." + Dotted(labels[1..])
  }

  lemma {:induction false} DottedOfLabels(name: string)
    ensures Dotted(Labels(name)) == name
  {
    if name != "" {
      var rest := Labels(name[1..]);
      DottedOfLabels(name[1..]);
      assert [name[0]] + name[1..] == name;
      if name[0] == '.' {
        assert ([""] + rest)[1..] == rest;
        assert "" + "." + Dotted(rest) == ['.'] + Dotted(rest);
      } else {
        LongerFirst(name[0], rest);
      }
    }
  }

  lemma LongerFirst(c: char, labels: seq<string>)
    requires labels != []
    ensures Dotted([[c] + labels[0]] + labels[1..]) == [c] + Dotted(labels)
  {
    var more := [[c] + labels[0]] + labels[1..];
    assert more[1..] == labels[1..];
    if |labels| > 1 {
      assert ([c] + labels[0]) + "." + Dotted(labels[1..]) == [c] + (labels[0] + "." + Dotted(labels[1..]));
    }
  }

  lemma {:induction false} LabelsOfCut(head: string, rest: string)
    requires '.' !in head
    ensures Labels(head + "." + rest) == [head] + Labels(rest)
  {
    var name := head + "." + rest;
    if head == "" {
      assert name == ['.'] + rest && name[1..] == rest;
    } else {
      LabelsOfCut(head[1..], rest);
      assert name[1..] == head[1..] + "." + rest && name[0] == head[0] && head[0] in head;
      assert [head[0]] + head[1..] == head;
      assert ([head[1..]] + Labels(rest))[1..] == Labels(rest);
    }
  }

  lemma {:induction false} LabelsConcat(front: string, name: string)
    ensures exists more :: Labels(front + "." + name) == more + Labels(name)
    decreases |front|
  {
    var s := front + "." + name;
    if front == "" {
      assert s == ['.'] + name && s[1..] == name;
      assert Labels(s) == [""] + Labels(name);
    } else {
      LabelsConcat(front[1..], name);
      var more :| Labels(front[1..] + "." + name) == more + Labels(name);
      assert s[1..] == front[1..] + "." + name && s[0] == front[0];
      var rest := Labels(s[1..]);
      FrontIsMore(front[1..], name, more);
      var first := if s[0] == '.' then [""] + more else [[s[0]] + more[0]] + more[1..];
      assert Labels(s) == first + Labels(name);
    }
  }

  lemma {:induction false} CountOfCut(front: string, name: string)
    ensures |Labels(front + "." + name)| == |Labels(front)| + |Labels(name)|
  {
    var s := front + "." + name;
    if front == "" {
      assert s == ['.'] + name && s[1..] == name;
    } else {
      CountOfCut(front[1..], name);
      assert s[1..] == front[1..] + "." + name && s[0] == front[0];
    }
  }

  lemma FrontIsMore(front: string, name: string, more: seq<string>)
    requires Labels(front + "." + name) == more + Labels(name)
    ensures more != []
  {
    CountOfCut(front, name);
  }

  /** The last labels of a name are those of the zone. */
  predicate EndsIn(labels: seq<string>, zone: seq<string>) {
    |zone| <= |labels| && labels[|labels| - |zone|..] == zone
  }

  lemma {:induction false} DottedEnds(labels: seq<string>, zone: seq<string>)
    requires zone != [] && labels != []
    ensures var s := Dotted(labels + zone); var z := Dotted(zone);
            |s| > |z| && s[|s| - |z| - 1..] == "." + z
  {
    var all := labels + zone;
    assert all[1..] == labels[1..] + zone && all[0] == labels[0];
    if |labels| == 1 {
      assert labels[1..] + zone == zone;
    } else {
      DottedEnds(labels[1..], zone);
    }
  }

  /** A zone covers a name exactly when the labels of the name end in the labels of the
      zone, case, surrounding white space and one dot at the end aside. */
  lemma CoversIsLabels(zone: string, name: string)
    ensures Covers(zone, name) <==> EndsIn(Labels(Normalise(name)), Labels(Normalise(zone)))
  {
    var z, n := Normalise(zone), Normalise(name);
    hide Normalise;
    var k := |n| - |z| - 1;
    if Covers(zone, name) && z != n {
      assert n == n[..k] + "." + z by {
        assert n == n[..k] + n[k..];
      }
      LabelsConcat(n[..k], z);
    }
    if EndsIn(Labels(n), Labels(z)) {
      DottedOfLabels(n);
      DottedOfLabels(z);
      var front := Labels(n)[..|Labels(n)| - |Labels(z)|];
      assert Labels(n) == front + Labels(z);
      if front != [] {
        DottedEnds(front, Labels(z));
      } else {
        assert [] + Labels(z) == Labels(z);
      }
    }
  }

  /** What the comparison leaves out, for a name without white space: one dot at the end,
      and the case. */
  lemma NormaliseMeans(name: string)
    requires Tight(name)
    ensures Normalise(name) == ToLower(TrimDot(name))
    ensures Normalise(ToUpperAscii(name)) == Normalise(name)
  {
    hide *;
    NormaliseTight(name);
    UpperIsTight(name);
    NormaliseTight(ToUpperAscii(name));
    UpperAndTrim(name);
    LowerOfUpper(TrimDot(name));
  }

  /** Every ASCII letter in capitals. */
  function ToUpperAscii(s: string): (t: string)
    ensures |t| == |s| && forall i :: 0 <= i < |s| ==> t[i] == if 'a' <= s[i] <= 'z' then ((s[i] as int) - 32) as char else s[i]
  {
    seq(|s|, i requires 0 <= i < |s| => if 'a' <= s[i] <= 'z' then ((s[i] as int) - 32) as char else s[i])
  }

  lemma UpperIsTight(s: string)
    requires Tight(s)
    ensures Tight(ToUpperAscii(s))
  {
  }

  lemma UpperAndTrim(s: string)
    ensures TrimDot(ToUpperAscii(s)) == ToUpperAscii(TrimDot(s))
  {
  }

  lemma LowerOfUpper(s: string)
    ensures ToLower(ToUpperAscii(s)) == ToLower(s)
  {
    forall i | 0 <= i < |s|
      ensures ToLower(ToUpperAscii(s))[i] == ToLower(s)[i]
    {
      assert 'a' <= s[i] <= 'z' ==> IsAscii(s[i]) && IsAscii(ToUpperAscii(s)[i]);
    }
  }

  // ----- parent zones -----

  /** The parent of a name is what follows its first label. */
  lemma ParentIsRest(head: string, rest: string)
    requires '.' !in head && Tight(head + "." + rest)
    ensures ParentZone(head + "." + rest) == TrimDot(rest)
  {
    hide TrimSpace;
    var name := head + "." + rest;
    TrimTight(name);
    FirstDot(head, rest);
    if rest != "" {
      assert name[|name| - 1] == rest[|rest| - 1];
      FirstDot(head, TrimDot(rest));
      assert TrimDot(name) == head + "." + TrimDot(rest);
      assert (head + "." + TrimDot(rest))[|head| + 1..] == TrimDot(rest);
    } else {
      assert TrimDot(name) == head;
    }
    NoDot(head);
    hide IndexOf;
  }

  /** A name of one label has none. */
  lemma NoParent(head: string)
    requires '.' !in head && Tight(head)
    ensures ParentZone(head) == ""
  {
    hide TrimSpace, IndexOf;
    TrimTight(head);
    NoDot(head);
  }

  lemma {:induction false} FirstDot(head: string, rest: string)
    requires '.' !in head
    ensures IndexOf(head + "." + rest, ".") == |head|
  {
    var s := head + "." + rest;
    if head == "" {
      assert s == "." + rest;
    } else {
      FirstDot(head[1..], rest);
      assert s[1..] == head[1..] + "." + rest && s[0] == head[0] && head[0] in head;
    }
  }

  lemma {:induction false} NoDot(head: string)
    requires '.' !in head
    ensures IndexOf(head, ".") == |head| && TrimDot(head) == head
  {
    if head != "" {
      assert head[0] in head && head[|head| - 1] in head;
      NoDot(head[1..]);
    }
  }

  /** A line that opens this zone. */
  predicate Opens(e: Entry, zone: string) {
    e.zone.Some? && TrimDot(e.zone.value) == zone
  }

  /** Declaring changes nothing for a block, for a name without a parent and when a line
      opens the parent already; otherwise one line comes behind the others that opens it. */
  lemma DeclaredOnce(es: seq<Entry>, r: Record)
    requires Valid(r)
    ensures var p := ParentZone(r.fqdn);
      if IsPolicy(r.typ) || p == "" || (exists k :: 0 <= k < |es| && Opens(es[k], p)) then DeclareZone(es, r) == es
      else
        exists e :: DeclareZone(es, r) == es + [e] && e.rec == None && Opens(e, p)
  {
    hide *;
    var p := ParentZone(r.fqdn);
    OpensMeans(es, p);
    DeclareWhen(es, r);
    Writer.ValidHasName(r);
    Writer.ParentIsName(r.fqdn);
    DeclaredIs(p);
    OpensIs(Declared(p), p);
    DotGoes(p);
  }

  lemma DotGoes(name: string)
    ensures TrimDot(name + ".") == name
  {
    assert (name + ".")[..|name|] == name;
  }

  lemma OpensIs(e: Entry, zone: string)
    ensures Opens(e, zone) <==> e.zone.Some? && TrimDot(e.zone.value) == zone
  {
    hide TrimDot;
  }

  lemma DeclareWhen(es: seq<Entry>, r: Record)
    ensures var p := ParentZone(r.fqdn);
      DeclareZone(es, r) == if IsPolicy(r.typ) || p == "" || OpensZone(es, p) then es else es + [Declared(p)]
  {
    hide ParentZone, Declared, OpensZone;
  }

  lemma OpensMeans(es: seq<Entry>, zone: string)
    ensures OpensZone(es, zone) <==> exists k :: 0 <= k < |es| && Opens(es[k], zone)
  {
    hide TrimDot;
    if OpensZone(es, zone) {
      var k :| 0 <= k < |es| && es[k].zone.Some? && TrimDot(es[k].zone.value) == zone;
      assert Opens(es[k], zone);
    }
    if k :| 0 <= k < |es| && Opens(es[k], zone) {
      assert TrimDot(es[k].zone.value) == zone;
    }
  }

  /** Every addition, set and edit of a record leaves the zone above it open. */
  lemma ParentIsOpen(es: seq<Entry>, op: Operation, r: Record)
    requires op == Add(r) || op == Copy(r) || op == Set(r) || (op.Edit? && op.record == r)
    requires Apply(es, op).Success? && !IsPolicy(r.typ) && ParentZone(r.fqdn) != ""
    ensures exists k :: 0 <= k < |Apply(es, op).value| && Opens(Apply(es, op).value[k], ParentZone(r.fqdn))
  {
    hide *;
    var mid := DeclaredLast(es, op, r);
    DeclaredOnce(mid, r);
    var out, p := Apply(es, op).value, ParentZone(r.fqdn);
    if e :| out == mid + [e] && Opens(e, p) {
      assert out[|mid|] == e;
    }
  }

  lemma DeclaredLast(es: seq<Entry>, op: Operation, r: Record) returns (mid: seq<Entry>)
    requires op == Add(r) || op == Copy(r) || op == Set(r) || (op.Edit? && op.record == r)
    requires Apply(es, op).Success?
    ensures Valid(r) && Apply(es, op).value == DeclareZone(mid, r)
  {
    hide Valid, ValidForRemoval, Holds, OpensName, Taken, Settle, Replace, Printed, DeclareZone, Consistent, RecordsIn;
    mid := match op
      case Add(_) => AddRecord(es, r).value
      case Copy(_) => AddTo(es, r).value
      case Set(_) => SetIn(es, r).value
      case Edit(was, _) => EditIn(es, was, r).value
      case _ => es;
  }
}
