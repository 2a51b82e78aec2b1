/** The symbol table of a descriptor database: one probe into an ordered map answers "which stored symbol encloses this
    name". */
module SymbolIndex {
  datatype Option<T> = None | Some(value: T)

  datatype Entry<V> = Entry(name: string, value: V)

  // ----- names -----

  predicate ValidChar(c: char) {
    c == '.' || c == '_' || '0' <= c <= '9' || 'A' <= c <= 'Z' || 'a' <= c <= 'z'
  }

  ghost predicate ValidName(name: string) {
    forall i :: 0 <= i < |name| ==> ValidChar(name[i])
  }

  method ValidateSymbolName(name: string) returns (ok: bool)
    ensures ok <==> ValidName(name)
  {
    for i := 0 to |name|
      invariant ValidName(name[..i])
    {
      if name[i] != '.' && name[i] != '_' && (name[i] < '0' || name[i] > '9')
         && (name[i] < 'A' || name[i] > 'Z') && (name[i] < 'a' || name[i] > 'z') {
        return false;
      }
      assert name[..i + 1] == name[..i] + [name[i]];
    }
    assert name[..|name|] == name;
    return true;
  }

  /** sub is super itself or one of the scopes that enclose it. */
  predicate IsSubSymbol(sub: string, super: string) {
    sub == super || (sub < super && super[|sub|] == '.')
  }

  /** A symbol encloses itself and what follows it behind a dot, and nothing else. */
  lemma EnclosedIffExtended(sub: string, super: string)
    ensures IsSubSymbol(sub, super) <==> super == sub || exists rest: string :: super == sub + "." + rest
  {
    if IsSubSymbol(sub, super) && super != sub {
      var rest := super[|sub| + 1..];
      assert super == sub + "." + rest;
    }
    if rest: string :| super == sub + "." + rest {
      assert sub <= super;
    }
  }

  // ----- the order of the map's keys -----

  predicate Less(a: string, b: string) {
    |b| > 0 && (|a| == 0 || a[0] < b[0] || (a[0] == b[0] && Less(a[1..], b[1..])))
  }

  lemma {:induction false} LessTotal(a: string, b: string)
    ensures Less(a, b) || a == b || Less(b, a)
    ensures Less(a, b) ==> a != b && !Less(b, a)
    decreases |a|
  {
    if |a| > 0 && |b| > 0 {
      LessTotal(a[1..], b[1..]);
      assert a == [a[0]] + a[1..] && b == [b[0]] + b[1..];
    }
  }

  lemma {:induction false} LessTransitive(a: string, b: string, c: string)
    requires Less(a, b) && Less(b, c)
    ensures Less(a, c)
    decreases |a|
  {
    if |a| > 0 && a[0] == b[0] == c[0] {
      LessTransitive(a[1..], b[1..], c[1..]);
    }
  }

  lemma {:induction false} PrefixIsLess(s: string, q: string)
    requires s < q
    ensures Less(s, q)
    decreases |s|
  {
    if |s| > 0 {
      PrefixIsLess(s[1..], q[1..]);
    }
  }

  lemma BetweenHead(s: string, t: string, q: string)
    requires s <= q && !Less(t, s) && !Less(q, t) && |s| > 0
    ensures |t| > 0 && t[0] == s[0] && !Less(t[1..], s[1..]) && !Less(q[1..], t[1..]) && s[1..] <= q[1..]
  {
  }

  lemma Dropped(t: string, n: nat)
    requires 0 < n <= |t|
    ensures t[1..][n - 1..] == t[n..]
  {
  }

  lemma PrefixByHead(s: string, t: string)
    requires |s| > 0 && |t| > 0 && s[0] == t[0] && s[1..] <= t[1..]
    ensures s <= t
  {
    assert s == [s[0]] + s[1..] && t == [t[0]] + t[1..];
  }

  /** What sorts between s and an extension of s extends s too. */
  lemma {:induction false} Between(s: string, t: string, q: string)
    requires s <= q && !Less(t, s) && !Less(q, t)
    ensures s <= t && !Less(q[|s|..], t[|s|..])
    decreases |s|
  {
    if |s| > 0 {
      hide Less;
      BetweenHead(s, t, q);
      Between(s[1..], t[1..], q[1..]);
      PrefixByHead(s, t);
      Dropped(q, |s|);
      Dropped(t, |s|);
    } else {
      assert q[|s|..] == q && t[|s|..] == t;
    }
  }

  /** As '.' sorts below every other valid character, a valid name between s and a name in the scope s is in that scope.
      */
  lemma BetweenIsEnclosed(s: string, t: string, q: string)
    requires ValidName(t) && IsSubSymbol(s, q) && !Less(t, s) && !Less(q, t)
    ensures IsSubSymbol(s, t)
  {
    if s == q {
      LessTotal(s, t);
    } else {
      Between(s, t, q);
      if |t| > |s| {
        assert t[|s|..][0] == t[|s|] && q[|s|..][0] == '.';
      }
    }
  }

  // ----- the ordered map -----

  ghost predicate Sorted<V>(es: seq<Entry<V>>) {
    forall i: nat, j: nat :: i < j < |es| ==> Less(es[i].name, es[j].name)
  }

  ghost predicate Valid<V>(es: seq<Entry<V>>) {
    Sorted(es) && forall i: nat :: i < |es| ==> ValidName(es[i].name)
  }

  /** No stored symbol encloses another one. */
  ghost predicate Separate<V>(es: seq<Entry<V>>) {
    forall i: nat, j: nat :: i < |es| && j < |es| && i != j ==> !IsSubSymbol(es[i].name, es[j].name)
  }

  /** The position of the first key greater than name. */
  function UpperBound<V>(es: seq<Entry<V>>, name: string): (u: nat)
    ensures u <= |es| && (u < |es| ==> Less(name, es[u].name))
    ensures forall i: nat :: i < u ==> !Less(name, es[i].name)
  {
    if |es| == 0 || Less(name, es[0].name) then 0 else 1 + UpperBound(es[1..], name)
  }

  lemma AboveBound<V>(es: seq<Entry<V>>, name: string, i: nat)
    requires Sorted(es) && i < |es|
    ensures Less(name, es[i].name) <==> UpperBound(es, name) <= i
  {
    var u := UpperBound(es, name);
    if u < i {
      LessTransitive(name, es[u].name, es[i].name);
    }
  }

  /** upper_bound stepped back by one, but not before begin(): the first key is returned even if it is greater. */
  function LastLessOrEqual<V>(es: seq<Entry<V>>, name: string): (it: nat)
    ensures it <= |es| && (it == |es| <==> |es| == 0)
  {
    var u := UpperBound(es, name);
    if u != 0 then u - 1 else u
  }

  function Inserted<V>(es: seq<Entry<V>>, e: Entry<V>): seq<Entry<V>> {
    var u := UpperBound(es, e.name);
    es[..u] + [e] + es[u..]
  }

  // ----- lookup -----

  function Probe<V>(es: seq<Entry<V>>, name: string): Option<V> {
    var it := LastLessOrEqual(es, name);
    if it < |es| && IsSubSymbol(es[it].name, name) then Some(es[it].value) else None
  }

  /** The first entry, in order, whose symbol is the name or encloses it. */
  function Scan<V>(es: seq<Entry<V>>, name: string): (r: Option<V>)
    ensures r.None? <==> forall i: nat :: i < |es| ==> !IsSubSymbol(es[i].name, name)
    ensures r.Some? ==> exists i: nat :: i < |es| && IsSubSymbol(es[i].name, name) && es[i].value == r.value
  {
    if |es| == 0 then None
    else if IsSubSymbol(es[0].name, name) then Some(es[0].value)
    else
      var r := Scan(es[1..], name);
      assert r.Some? ==> exists i: nat :: 1 <= i < |es| && IsSubSymbol(es[i].name, name) && es[i].value == r.value by {
        if r.Some? {
          var i: nat :| i < |es[1..]| && IsSubSymbol(es[1..][i].name, name) && es[1..][i].value == r.value;
          assert es[1..][i] == es[i + 1];
        }
      }
      assert r.None? ==> forall i: nat :: 1 <= i < |es| ==> es[i] == es[1..][i - 1];
      r
  }

  /** A symbol that encloses the name is the probed one, unless it encloses the probed one as well. */
  lemma ProbedEntry<V>(es: seq<Entry<V>>, name: string, i: nat)
    requires Valid(es) && i < |es| && IsSubSymbol(es[i].name, name)
    ensures var it := LastLessOrEqual(es, name); it < |es| && i <= it && IsSubSymbol(es[i].name, es[it].name)
  {
    if es[i].name != name {
      PrefixIsLess(es[i].name, name);
    }
    LessTotal(es[i].name, name);
    AboveBound(es, name, i);
    var it := LastLessOrEqual(es, name);
    if i != it {
      LessTotal(es[i].name, es[it].name);
      BetweenIsEnclosed(es[i].name, es[it].name, name);
    }
  }

  /** The single probe gives the answer of the linear scan, for every query string. */
  lemma ProbeIsScan<V>(es: seq<Entry<V>>, name: string)
    requires Valid(es) && Separate(es)
    ensures Probe(es, name) == Scan(es, name)
  {
    if Scan(es, name).Some? {
      var i: nat :| i < |es| && IsSubSymbol(es[i].name, name) && es[i].value == Scan(es, name).value;
      ProbedEntry(es, name, i);
    }
  }

  /** Whatever is stored, a probe that finds something found an enclosing symbol. */
  lemma ProbeIsSound<V>(es: seq<Entry<V>>, name: string)
    requires Probe(es, name).Some?
    ensures Scan(es, name).Some?
  {
    assert IsSubSymbol(es[LastLessOrEqual(es, name)].name, name);
  }

  /** The last entry in the scope of entry i. */
  lemma LastInScope<V>(es: seq<Entry<V>>, i: nat, j: nat) returns (k: nat)
    requires i < |es| && j < |es| && i != j && IsSubSymbol(es[i].name, es[j].name)
    ensures j <= k < |es| && k != i && IsSubSymbol(es[i].name, es[k].name)
    ensures forall l: nat :: k < l < |es| && l != i ==> !IsSubSymbol(es[i].name, es[l].name)
    decreases |es| - j
  {
    if l: nat :| j < l < |es| && l != i && IsSubSymbol(es[i].name, es[l].name) {
      k := LastInScope(es, i, l);
    } else {
      k := j;
    }
  }

  /** If entry i encloses another entry, some name in the scope of entry i is not found. */
  lemma MissedName<V>(es: seq<Entry<V>>, i: nat, j: nat) returns (name: string)
    requires Valid(es) && i < |es| && j < |es| && i != j && IsSubSymbol(es[i].name, es[j].name)
    ensures Probe(es, name) == None && Scan(es, name).Some?
  {
    var k := LastInScope(es, i, j);
    var s, t := es[i].name, es[k].name;
    name := t + "0";
    LessTotal(s, t);
    assert s != t by {
      if i < k { assert Less(s, t); } else { assert Less(t, s); }
    }
    assert IsSubSymbol(s, name);
    PrefixIsLess(t, name);
    LessTotal(t, name);
    AboveBound(es, name, k);
    var it := LastLessOrEqual(es, name);
    assert it == k by {
      ProbedEntry(es, name, i);
      if it != i && it != k {
        assert false;
      } else if it == i {
        PrefixIsLess(s, t);
      }
    }
  }

  /** The single probe finds what the scan finds, for every name, exactly if no stored symbol encloses another one. */
  lemma ProbeCompleteIff<V>(es: seq<Entry<V>>)
    requires Valid(es)
    ensures Separate(es) <==> forall name :: Probe(es, name) == Scan(es, name)
  {
    if Separate(es) {
      forall name
        ensures Probe(es, name) == Scan(es, name)
      {
        ProbeIsScan(es, name);
      }
    } else {
      var i: nat, j: nat :| i < |es| && j < |es| && i != j && IsSubSymbol(es[i].name, es[j].name);
      var name := MissedName(es, i, j);
    }
  }

  // ----- insertion -----

  ghost predicate Conflicts<V>(es: seq<Entry<V>>, name: string) {
    exists i: nat :: i < |es| && (IsSubSymbol(es[i].name, name) || IsSubSymbol(name, es[i].name))
  }

  /** The check that AddSymbol makes on a valid name: the probed key and the one behind it. */
  predicate Accepts<V>(es: seq<Entry<V>>, name: string) {
    var it := LastLessOrEqual(es, name);
    it == |es| || (!IsSubSymbol(es[it].name, name) && (it + 1 == |es| || !IsSubSymbol(name, es[it + 1].name)))
  }

  /** A name below every key that encloses the first key but not the second: the first key is never compared with it. */
  predicate Overlooked<V>(es: seq<Entry<V>>, name: string) {
    |es| > 0 && Less(name, es[0].name) && IsSubSymbol(name, es[0].name) && (|es| > 1 ==> !IsSubSymbol(name, es[1].name))
  }

  /** Of the keys above the name, the first one is in its scope if any is. */
  lemma FirstAboveConflicts<V>(es: seq<Entry<V>>, name: string, u: nat, i: nat)
    requires Valid(es) && u <= i < |es| && Less(name, es[u].name) && IsSubSymbol(name, es[i].name)
    ensures IsSubSymbol(name, es[u].name)
  {
    if u < i {
      LessTotal(name, es[u].name);
      LessTotal(es[u].name, es[i].name);
      BetweenIsEnclosed(name, es[u].name, es[i].name);
    }
  }

  /** Two keys decide: a valid name passes exactly if it conflicts with no key, or is overlooked. */
  lemma AcceptsIff<V>(es: seq<Entry<V>>, name: string)
    requires Valid(es) && Separate(es)
    ensures Accepts(es, name) <==> !Conflicts(es, name) || Overlooked(es, name)
  {
    var u, it := UpperBound(es, name), LastLessOrEqual(es, name);
    if Accepts(es, name) && !Overlooked(es, name) {
      forall i: nat | i < |es|
        ensures !IsSubSymbol(es[i].name, name) && !IsSubSymbol(name, es[i].name)
      {
        AcceptedApart(es, name, i);
      }
    } else if Accepts(es, name) {
      assert IsSubSymbol(name, es[0].name);
    } else if Overlooked(es, name) {
      LessTotal(name, es[0].name);
    }
  }

  lemma AcceptedApart<V>(es: seq<Entry<V>>, name: string, i: nat)
    requires Valid(es) && Separate(es) && Accepts(es, name) && !Overlooked(es, name) && i < |es|
    ensures !IsSubSymbol(es[i].name, name) && !IsSubSymbol(name, es[i].name)
  {
    var u, it := UpperBound(es, name), LastLessOrEqual(es, name);
    if IsSubSymbol(es[i].name, name) {
      ProbedEntry(es, name, i);
    } else if IsSubSymbol(name, es[i].name) {
      PrefixIsLess(name, es[i].name);
      AboveBound(es, name, i);
      FirstAboveConflicts(es, name, u, i);
    }
  }

  lemma InsertedIsValid<V>(es: seq<Entry<V>>, e: Entry<V>)
    requires Valid(es) && ValidName(e.name) && forall i: nat :: i < |es| ==> es[i].name != e.name
    ensures Valid(Inserted(es, e))
  {
    var u := UpperBound(es, e.name);
    forall i: nat | i < |es|
      ensures if i < u then Less(es[i].name, e.name) else Less(e.name, es[i].name)
    {
      AboveBound(es, e.name, i);
      LessTotal(es[i].name, e.name);
    }
  }

  lemma InsertedAt<V>(es: seq<Entry<V>>, e: Entry<V>, i: nat)
    requires i < |Inserted(es, e)|
    ensures var u := UpperBound(es, e.name);
            Inserted(es, e)[i] == if i == u then e else es[if i < u then i else i - 1]
  {
  }

  /** Inserting keeps the stored symbols separate exactly if the name conflicts with none of them. */
  lemma InsertedIsSeparate<V>(es: seq<Entry<V>>, e: Entry<V>)
    requires Separate(es)
    ensures Separate(Inserted(es, e)) <==> !Conflicts(es, e.name)
  {
    var u, es' := UpperBound(es, e.name), Inserted(es, e);
    assert es'[u] == e;
    if Conflicts(es, e.name) {
      var i: nat :| i < |es| && (IsSubSymbol(es[i].name, e.name) || IsSubSymbol(e.name, es[i].name));
      assert es'[if i < u then i else i + 1] == es[i];
    } else {
      forall i: nat, j: nat | i < |es'| && j < |es'| && i != j
        ensures !IsSubSymbol(es'[i].name, es'[j].name)
      {
        hide Less, IsSubSymbol, UpperBound;
        InsertedAt(es, e, i);
        InsertedAt(es, e, j);
      }
    }
  }

  /** An overlooked name does conflict with the first key, which it differs from. */
  lemma OverlookedConflicts<V>(es: seq<Entry<V>>, name: string)
    requires Valid(es) && (!Conflicts(es, name) || Overlooked(es, name))
    ensures Overlooked(es, name) ==> Conflicts(es, name)
    ensures forall i: nat :: i < |es| ==> es[i].name != name
  {
    if Overlooked(es, name) {
      assert IsSubSymbol(name, es[0].name);
      forall i: nat | i < |es|
        ensures es[i].name != name
      {
        LessTotal(name, es[0].name);
        if i > 0 {
          LessTransitive(name, es[0].name, es[i].name);
          LessTotal(name, es[i].name);
        }
      }
    }
  }

  /** Taking an overlooked name always costs a lookup: a name in its scope is no longer found. */
  lemma OverlookedIsMissed<V>(es: seq<Entry<V>>, e: Entry<V>) returns (name: string)
    requires Valid(es) && ValidName(e.name) && Overlooked(es, e.name)
    ensures Accepts(es, e.name)
    ensures Probe(Inserted(es, e), name) == None && Scan(Inserted(es, e), name).Some?
  {
    OverlookedConflicts(es, e.name);
    InsertedIsValid(es, e);
    var es' := Inserted(es, e);
    assert es'[0] == e && es'[1] == es[0];
    name := MissedName(es', 0, 1);
  }

  /** With "foo.bar" stored, "foo" is such a name. */
  lemma OverlookedName()
    ensures var es := [Entry("foo.bar", 1)];
            Valid(es) && Separate(es) && ValidName("foo") && Conflicts(es, "foo") && Overlooked(es, "foo")
  {
    var es := [Entry("foo.bar", 1)];
    PrefixIsLess("foo", "foo.bar");
    assert IsSubSymbol("foo", es[0].name);
  }

  class DescriptorIndex<V> {
    var bySymbol: seq<Entry<V>>

    ghost predicate Inv()
      reads this
    {
      Valid(bySymbol) && Separate(bySymbol)
    }

    constructor ()
      ensures Inv() && bySymbol == []
    {
      bySymbol := [];
    }

    method FindSymbol(name: string) returns (r: Option<V>)
      requires Inv()
      ensures r == Scan(bySymbol, name)
    {
      ProbeIsScan(bySymbol, name);
      var it := LastLessOrEqual(bySymbol, name);
      r := if it < |bySymbol| && IsSubSymbol(bySymbol[it].name, name) then Some(bySymbol[it].value) else None;
    }

    /** Refuses the invalid names and those in conflict with a stored one, but for the overlooked ones, which break the
        invariant. */
    method AddSymbol(name: string, value: V) returns (ok: bool)
      requires Inv()
      modifies this
      ensures ok <==> ValidName(name) && (!Conflicts(old(bySymbol), name) || Overlooked(old(bySymbol), name))
      ensures bySymbol == if ok then Inserted(old(bySymbol), Entry(name, value)) else old(bySymbol)
      ensures Valid(bySymbol)
      ensures Inv() <==> !(ValidName(name) && Overlooked(old(bySymbol), name))
    {
      ok := ValidateSymbolName(name);
      if !ok {
        return;
      }
      AcceptsIff(bySymbol, name);
      InsertedIsSeparate(bySymbol, Entry(name, value));
      var it := LastLessOrEqual(bySymbol, name);
      if it != |bySymbol| {
        if IsSubSymbol(bySymbol[it].name, name) {
          return false;
        }
        it := it + 1;
        if it != |bySymbol| && IsSubSymbol(name, bySymbol[it].name) {
          return false;
        }
      }
      OverlookedConflicts(bySymbol, name);
      InsertedIsValid(bySymbol, Entry(name, value));
      bySymbol := Inserted(bySymbol, Entry(name, value));
    }
  }
}
