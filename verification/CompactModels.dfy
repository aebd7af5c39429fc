/** The list of models a matrix run is asked for: trimmed, without blanks and repeats, in first-seen order. */
module CompactModels {
  import opened Common
  import opened Text

  function Trimmed(models: seq<string>): (r: seq<string>)
    ensures |r| == |models|
  {
    seq(|models|, i requires 0 <= i < |models| => TrimSpace(models[i]))
  }

  /** Position of the first of these names that is this one. */
  predicate FirstAt(names: seq<string>, name: string, k: int) {
    0 <= k < |names| && names[k] == name && forall m :: 0 <= m < k ==> names[m] != name
  }

  /** out lists the distinct non-empty names, ordered by where each is first seen. */
  ghost predicate IsCompact(names: seq<string>, out: seq<string>) {
    && Distinct(out)
    && (forall name :: name in out <==> name != "" && exists k :: FirstAt(names, name, k))
    && (forall i, j, a, b :: 0 <= i < j < |out| && FirstAt(names, out[i], a) && FirstAt(names, out[j], b) ==> a < b)
  }

  method CompactModels(models: seq<string>) returns (out: seq<string>)
    ensures IsCompact(Trimmed(models), out)
  {
    hide TrimSpace, IsCompact;
    var seen: set<string> := {};
    out := [];
    NothingSeen();
    for n := 0 to |models|
      invariant seen == set model | model in out
      invariant IsCompact(Trimmed(models[..n]), out)
    {
      var model := TrimSpace(models[n]);
      assert Trimmed(models[..n + 1]) == Trimmed(models[..n]) + [model];
      if model == "" {
        SkipName(Trimmed(models[..n]), model, out);
        continue;
      }
      if model in seen {
        SkipName(Trimmed(models[..n]), model, out);
        continue;
      }
      TakeName(Trimmed(models[..n]), model, out);
      seen := seen + {model};
      out := out + [model];
    }
    assert models[..|models|] == models;
  }

  lemma NothingSeen()
    ensures IsCompact([], [])
  {
  }

  lemma FirstStays(names: seq<string>, last: string, name: string, k: int)
    requires k < |names|
    ensures FirstAt(names + [last], name, k) <==> FirstAt(names, name, k)
  {
    assert forall m :: 0 <= m < |names| ==> (names + [last])[m] == names[m];
  }

  lemma KnownIsNotNew(names: seq<string>, name: string)
    requires exists m :: FirstAt(names, name, m)
    ensures !FirstAt(names + [name], name, |names|)
  {
    var m :| FirstAt(names, name, m);
    assert (names + [name])[m] == names[m];
  }

  /** An empty or a known name adds nothing. */
  lemma SkipName(names: seq<string>, last: string, out: seq<string>)
    requires IsCompact(names, out)
    requires last == "" || last in out
    ensures IsCompact(names + [last], out)
  {
    var more := names + [last];
    forall name, k | FirstAt(more, name, k) ensures name == "" || FirstAt(names, name, k) {
      if k < |names| {
        FirstStays(names, last, name, k);
      } else if last != "" {
        KnownIsNotNew(names, last);
      }
    }
    forall name, k | FirstAt(names, name, k) ensures FirstAt(more, name, k) {
      FirstStays(names, last, name, k);
    }
    forall i | 0 <= i < |out| ensures out[i] != "" { assert out[i] in out; }
  }

  /** A new name goes to the end. */
  lemma TakeName(names: seq<string>, last: string, out: seq<string>)
    requires IsCompact(names, out)
    requires last != "" && last !in out
    ensures IsCompact(names + [last], out + [last])
  {
    var more, longer := names + [last], out + [last];
    forall name, k ensures FirstAt(more, name, k) <==> FirstAt(names, name, k) || (name == last && k == |names|) {
      NewName(names, last, out, name, k);
    }
    assert FirstAt(more, last, |names|);
    forall name ensures name in longer <==> name != "" && exists k :: FirstAt(more, name, k) {
      assert name in longer <==> name in out || name == last;
    }
    forall i | 0 <= i < |out| ensures longer[i] == out[i] != last { assert out[i] in out; }
  }

  lemma NewName(names: seq<string>, last: string, out: seq<string>, name: string, k: int)
    requires IsCompact(names, out)
    requires last != "" && last !in out
    ensures FirstAt(names + [last], name, k) <==> FirstAt(names, name, k) || (name == last && k == |names|)
  {
    if k < |names| {
      FirstStays(names, last, name, k);
    } else if k == |names| {
      forall m | 0 <= m < |names| ensures names[m] != last {
        if names[m] == last { SomeFirst(names, last, m); }
      }
    }
  }

  lemma {:induction false} SomeFirst(names: seq<string>, name: string, m: nat)
    requires m < |names| && names[m] == name
    ensures exists k :: FirstAt(names, name, k)
  {
    if q :| 0 <= q < m && names[q] == name {
      SomeFirst(names, name, q);
    } else {
      assert FirstAt(names, name, m);
    }
  }
}
