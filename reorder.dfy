/**
 * Drag-and-drop reordering of skills and projects.
 *
 * The handler tags every item with a string id (`technical_3`, `soft_0` for
 * skills, the list position `"2"` for projects), builds a dictionary from id
 * to item, and rebuilds the list from the submitted ids: an id that names no
 * item is skipped, and an item whose id is not submitted is dropped.
 */
module Reorder {
  import opened Records
  import opened Text

  /** An item paired with the id the page submits for it. */
  datatype Tagged<T> = Tagged(key: string, item: T)

  function Keys<T>(ts: seq<Tagged<T>>): (ks: seq<string>)
    ensures |ks| == |ts|
    ensures forall i :: 0 <= i < |ts| ==> ks[i] == ts[i].key
  {
    seq(|ts|, i requires 0 <= i < |ts| => ts[i].key)
  }

  function Items<T>(ts: seq<Tagged<T>>): (xs: seq<T>)
    ensures |xs| == |ts|
    ensures forall i :: 0 <= i < |ts| ==> xs[i] == ts[i].item
  {
    seq(|ts|, i requires 0 <= i < |ts| => ts[i].item)
  }

  predicate DistinctKeys<T>(ts: seq<Tagged<T>>)
  {
    forall i, j :: 0 <= i < j < |ts| ==> ts[i].key != ts[j].key
  }

  /** The dictionary `{t.key: t.item for t in ts}`; a later entry replaces an earlier one with the same key. */
  function KeyMap<T>(ts: seq<Tagged<T>>): (m: map<string, T>)
    ensures forall k :: k in m <==> k in Keys(ts)
    ensures DistinctKeys(ts) ==> forall i :: 0 <= i < |ts| ==> m[ts[i].key] == ts[i].item
  {
    if ts == [] then map[]
    else
      var front := ts[..|ts| - 1];
      var last := ts[|ts| - 1];
      assert Keys(ts) == Keys(front) + [last.key];
      KeyMap(front)[last.key := last.item]
  }

  /** A key of the dictionary is the id of a tag, and with distinct ids it maps to that tag's item. */
  lemma KeyAt<T>(ts: seq<Tagged<T>>, key: string) returns (i: nat)
    requires key in KeyMap(ts)
    ensures i < |ts| && ts[i].key == key
    ensures DistinctKeys(ts) ==> KeyMap(ts)[key] == ts[i].item
  {
    assert key in Keys(ts);
    i :| i < |ts| && Keys(ts)[i] == key;
  }

  /** Every tag's id is a key of the dictionary, and with distinct ids it maps to that tag's item. */
  lemma KeyIn<T>(ts: seq<Tagged<T>>, i: nat)
    requires i < |ts|
    ensures ts[i].key in KeyMap(ts)
    ensures DistinctKeys(ts) ==> KeyMap(ts)[ts[i].key] == ts[i].item
  {
    assert Keys(ts)[i] == ts[i].key;
  }

  /** The submitted ids that name an item, in submitted order. */
  function Known<T>(m: map<string, T>, order: seq<string>): (ks: seq<string>)
    ensures |ks| <= |order|
    ensures forall j :: 0 <= j < |ks| ==> ks[j] in m
  {
    if order == [] then []
    else (if order[0] in m then [order[0]] else []) + Known(m, order[1..])
  }

  /** `[m[k] for k in order if k in m]`. */
  function Pick<T>(m: map<string, T>, order: seq<string>): (r: seq<T>)
    ensures |r| == |Known(m, order)|
    ensures forall j :: 0 <= j < |r| ==> Known(m, order)[j] in m && r[j] == m[Known(m, order)[j]]
  {
    if order == [] then []
    else
      var rest := Pick(m, order[1..]);
      if order[0] in m then
        assert Known(m, order) == [order[0]] + Known(m, order[1..]);
        [m[order[0]]] + rest
      else
        rest
  }

  /**
   * The list rebuilt from the submitted ids: every kept id is a tagged id,
   * and with distinct ids the `j`-th entry is the item tagged with the
   * `j`-th kept id.
   */
  function Reordered<T>(ts: seq<Tagged<T>>, order: seq<string>): (r: seq<T>)
    ensures |r| == |Known(KeyMap(ts), order)|
    ensures forall j :: 0 <= j < |r| ==> Known(KeyMap(ts), order)[j] in Keys(ts)
    ensures DistinctKeys(ts) ==>
      forall i, j :: 0 <= i < |ts| && 0 <= j < |r| && ts[i].key == Known(KeyMap(ts), order)[j] ==> r[j] == ts[i].item
  {
    Pick(KeyMap(ts), order)
  }

  /** Filtering the submitted ids distributes over concatenation. */
  lemma {:induction false} KnownAppend<T>(m: map<string, T>, a: seq<string>, b: seq<string>)
    ensures Known(m, a + b) == Known(m, a) + Known(m, b)
  {
    if a == [] {
      assert a + b == b;
    } else {
      assert (a + b)[0] == a[0] && (a + b)[1..] == a[1..] + b;
      KnownAppend(m, a[1..], b);
    }
  }

  /** A single submitted id is kept iff it names an item. */
  lemma KnownOne<T>(m: map<string, T>, k: string)
    ensures Known(m, [k]) == if k in m then [k] else []
  {
    assert [k][1..] == [];
  }

  lemma {:induction false} KnownIdempotent<T>(m: map<string, T>, order: seq<string>)
    ensures Known(m, Known(m, order)) == Known(m, order)
  {
    if order != [] {
      var rest := Known(m, order[1..]);
      KnownIdempotent(m, order[1..]);
      if order[0] in m {
        var ks := [order[0]] + rest;
        assert Known(m, order) == ks;
        assert ks[0] == order[0] && ks[1..] == rest;
        assert Known(m, ks) == [order[0]] + Known(m, rest);
      } else {
        assert Known(m, order) == rest;
      }
    }
  }

  /** The known ids are exactly the submitted ids that name an item. */
  lemma {:induction false} KnownMembers<T>(m: map<string, T>, order: seq<string>, k: string)
    ensures k in Known(m, order) <==> k in order && k in m
  {
    if order != [] {
      KnownMembers(m, order[1..], k);
      assert order == [order[0]] + order[1..];
    }
  }

  /** Unknown ids play no part: only the known ids, in their order, decide the result. */
  lemma {:induction false} PickIgnoresUnknown<T>(m: map<string, T>, order: seq<string>)
    ensures Pick(m, order) == Pick(m, Known(m, order))
  {
    if order != [] {
      var rest := Known(m, order[1..]);
      PickIgnoresUnknown(m, order[1..]);
      if order[0] in m {
        var ks := [order[0]] + rest;
        assert Known(m, order) == ks;
        assert ks[0] == order[0] && ks[1..] == rest;
        assert Pick(m, ks) == [m[order[0]]] + Pick(m, rest);
        assert Pick(m, order) == [m[order[0]]] + Pick(m, order[1..]);
      } else {
        assert Known(m, order) == rest;
      }
    }
  }

  lemma {:induction false} KnownAll<T>(m: map<string, T>, order: seq<string>)
    requires forall j :: 0 <= j < |order| ==> order[j] in m
    ensures Known(m, order) == order
  {
    if order != [] {
      KnownAll(m, order[1..]);
      assert order == [order[0]] + order[1..];
    }
  }

  /** Submitting every current id in the current order gives the list back unchanged. */
  lemma ReorderedIdentity<T>(ts: seq<Tagged<T>>)
    requires DistinctKeys(ts)
    ensures Reordered(ts, Keys(ts)) == Items(ts)
  {
    var m := KeyMap(ts);
    forall j | 0 <= j < |ts| ensures Keys(ts)[j] in m {
      assert Keys(ts)[j] in Keys(ts);
    }
    KnownAll(m, Keys(ts));
  }

  // ----------------------------------------------------------------- skills

  /** A skill of the combined list, with the type the page shows beside it. */
  datatype SkillEntry = SkillEntry(kind: SkillKind, skill: Skill)

  function KindName(k: SkillKind): string
  {
    match k
    case Technical => "technical"
    case Soft => "soft"
  }

  /** The id `f"{skill_type}_{idx}"` of the skill at position `i` of its list. */
  function SkillId(k: SkillKind, i: nat): string
  {
    KindName(k) + "_" + NatToString(i)
  }

  lemma SkillIdInjective(k1: SkillKind, i1: nat, k2: SkillKind, i2: nat)
    requires SkillId(k1, i1) == SkillId(k2, i2)
    ensures k1 == k2 && i1 == i2
  {
    assert SkillId(k1, i1)[0] == KindName(k1)[0];
    assert SkillId(k2, i2)[0] == KindName(k2)[0];
    var p := KindName(k1) + "_";
    assert SkillId(k1, i1)[|p|..] == NatToString(i1);
    assert SkillId(k2, i2)[|p|..] == NatToString(i2);
    NatToStringInjective(i1, i2);
  }

  /** The skills of one type, in order, each tagged with its id and type. */
  function TagKind(xs: seq<Skill>, k: SkillKind): (r: seq<Tagged<SkillEntry>>)
    ensures |r| == |xs|
  {
    seq(|xs|, i requires 0 <= i < |xs| => Tagged(SkillId(k, i), SkillEntry(k, xs[i])))
  }

  /** The skills of one type tagged with their ids alone, as if that type were reordered on its own. */
  function KindTags(xs: seq<Skill>, k: SkillKind): (r: seq<Tagged<Skill>>)
    ensures |r| == |xs|
    ensures DistinctKeys(r)
  {
    var r := seq(|xs|, i requires 0 <= i < |xs| => Tagged(SkillId(k, i), xs[i]));
    assert DistinctKeys(r) by {
      forall i, j | 0 <= i < j < |r| ensures r[i].key != r[j].key {
        if r[i].key == r[j].key {
          SkillIdInjective(k, i, k, j);
        }
      }
    }
    r
  }

  /** All skills, technical first, each tagged with its id and type; no two share an id. */
  function TagSkills(s: Skills): (r: seq<Tagged<SkillEntry>>)
    ensures |r| == |s.technical| + |s.soft|
    ensures DistinctKeys(r)
  {
    var r := TagKind(s.technical, Technical) + TagKind(s.soft, Soft);
    assert DistinctKeys(r) by {
      var n := |s.technical|;
      forall i, j | 0 <= i < j < |r| ensures r[i].key != r[j].key {
        if r[i].key == r[j].key {
          var ki, ii := if i < n then Technical else Soft, if i < n then i else i - n;
          var kj, jj := if j < n then Technical else Soft, if j < n then j else j - n;
          assert r[i].key == SkillId(ki, ii);
          assert r[j].key == SkillId(kj, jj);
          SkillIdInjective(ki, ii, kj, jj);
        }
      }
    }
    r
  }

  /** The tagging loop of the skills handler. */
  method CollectSkillTags(s: Skills) returns (all: seq<Tagged<SkillEntry>>)
    ensures all == TagSkills(s)
  {
    all := [];
    for i := 0 to |s.technical|
      invariant all == TagKind(s.technical, Technical)[..i]
    {
      all := all + [Tagged(SkillId(Technical, i), SkillEntry(Technical, s.technical[i]))];
    }
    for i := 0 to |s.soft|
      invariant all == TagKind(s.technical, Technical) + TagKind(s.soft, Soft)[..i]
    {
      all := all + [Tagged(SkillId(Soft, i), SkillEntry(Soft, s.soft[i]))];
    }
  }

  /** The skills of one type, in order, stripped of their id and type. */
  function OfKind(es: seq<SkillEntry>, k: SkillKind): (r: seq<Skill>)
    ensures |r| <= |es|
  {
    if es == [] then []
    else (if es[0].kind == k then [es[0].skill] else []) + OfKind(es[1..], k)
  }

  /** A single entry is kept, without its type, iff it has the selected type. */
  lemma OfKindOne(e: SkillEntry, k: SkillKind)
    ensures OfKind([e], k) == if e.kind == k then [e.skill] else []
  {
    assert [e][1..] == [];
  }

  /** Splitting by type keeps relative order: it distributes over concatenation. */
  lemma {:induction false} OfKindAppend(a: seq<SkillEntry>, b: seq<SkillEntry>, k: SkillKind)
    ensures OfKind(a + b, k) == OfKind(a, k) + OfKind(b, k)
  {
    if a == [] {
      assert a + b == b;
    } else {
      assert (a + b)[0] == a[0] && (a + b)[1..] == a[1..] + b;
      OfKindAppend(a[1..], b, k);
    }
  }

  /** Every skill lands in exactly one of the two lists. */
  lemma {:induction false} OfKindPartition(es: seq<SkillEntry>)
    ensures |OfKind(es, Technical)| + |OfKind(es, Soft)| == |es|
  {
    if es != [] {
      OfKindPartition(es[1..]);
    }
  }

  lemma {:induction false} OfKindOwnTags(xs: seq<Skill>, k: SkillKind, other: SkillKind)
    requires other != k
    ensures OfKind(Items(TagKind(xs, k)), k) == xs
    ensures OfKind(Items(TagKind(xs, k)), other) == []
    decreases |xs|
  {
    if xs != [] {
      var es := Items(TagKind(xs, k));
      var n := |xs| - 1;
      assert es == Items(TagKind(xs[..n], k)) + [SkillEntry(k, xs[n])];
      OfKindOwnTags(xs[..n], k, other);
      OfKindAppend(Items(TagKind(xs[..n], k)), [SkillEntry(k, xs[n])], k);
      OfKindAppend(Items(TagKind(xs[..n], k)), [SkillEntry(k, xs[n])], other);
      assert xs == xs[..n] + [xs[n]];
    }
  }

  /** The skills after a reorder: the submitted skills split back into technical and soft. */
  /**
   * The skills after a reorder: the submitted skills split back into
   * technical and soft. Each list comes out as if it alone were reordered by
   * the submitted ids: ids of the other type, and unknown ids, are skipped.
   */
  function ReorderSkills(s: Skills, order: seq<string>): (r: Skills)
    ensures |r.technical| + |r.soft| == |Known(KeyMap(TagSkills(s)), order)|
    ensures r.technical == Reordered(KindTags(s.technical, Technical), order)
    ensures r.soft == Reordered(KindTags(s.soft, Soft), order)
  {
    var picked := Reordered(TagSkills(s), order);
    OfKindPartition(picked);
    ReorderOneKind(s, order, Technical);
    ReorderOneKind(s, order, Soft);
    Skills(OfKind(picked, Technical), OfKind(picked, Soft))
  }

  /** Selecting one type after reordering all skills reorders that type's list on its own. */
  lemma ReorderOneKind(s: Skills, order: seq<string>, k: SkillKind)
    ensures OfKind(Reordered(TagSkills(s), order), k) == Reordered(KindTags(s.Of(k), k), order)
  {
    KindMap(s, k);
    PickByKind(KeyMap(TagSkills(s)), KeyMap(KindTags(s.Of(k), k)), k, order);
  }

  /** Selecting one type from the picked entries picks from that type's own dictionary. */
  lemma {:induction false} PickByKind(m: map<string, SkillEntry>, mk: map<string, Skill>, k: SkillKind, order: seq<string>)
    requires Restricts(m, mk, k)
    ensures OfKind(Pick(m, order), k) == Pick(mk, order)
  {
    if order != [] {
      var head := if order[0] in m then [m[order[0]]] else [];
      assert Pick(m, order) == head + Pick(m, order[1..]);
      OfKindAppend(head, Pick(m, order[1..]), k);
      PickByKind(m, mk, k, order[1..]);
      if order[0] in m {
        assert head[1..] == [];
      }
    }
  }

  /** `mk` is `m` restricted to the entries of type `k`, without their type. */
  ghost predicate Restricts(m: map<string, SkillEntry>, mk: map<string, Skill>, k: SkillKind)
  {
    && (forall key :: key in mk <==> key in m && m[key].kind == k)
    && (forall key :: key in mk ==> m[key].skill == mk[key])
  }

  /** Where the skills of type `k` start in the combined tagged list. */
  function Offset(s: Skills, k: SkillKind): nat
  {
    if k == Technical then 0 else |s.technical|
  }

  /** The `i`-th tag of one type sits at its offset in the combined list, with its type added. */
  lemma TagSkillsAt(s: Skills, k: SkillKind, i: nat)
    requires i < |s.Of(k)|
    ensures Offset(s, k) + i < |TagSkills(s)|
    ensures TagSkills(s)[Offset(s, k) + i]
         == Tagged(KindTags(s.Of(k), k)[i].key, SkillEntry(k, KindTags(s.Of(k), k)[i].item))
  {
  }

  /** Each entry of the combined list sits in the part of its own type. */
  lemma TagSkillsKind(s: Skills, j: nat)
    requires j < |TagSkills(s)|
    ensures var k := TagSkills(s)[j].item.kind;
            Offset(s, k) <= j < Offset(s, k) + |s.Of(k)|
            && TagSkills(s)[j].key == KindTags(s.Of(k), k)[j - Offset(s, k)].key
  {
  }

  /** The dictionary of one type's tags is the combined dictionary restricted to that type. */
  lemma KindMap(s: Skills, k: SkillKind)
    ensures Restricts(KeyMap(TagSkills(s)), KeyMap(KindTags(s.Of(k), k)), k)
  {
    var m, mk := KeyMap(TagSkills(s)), KeyMap(KindTags(s.Of(k), k));
    forall key | key in mk ensures key in m && m[key].kind == k && m[key].skill == mk[key] {
      KindKeyShared(s, k, key);
    }
    forall key | key in m && m[key].kind == k ensures key in mk {
      KindKeyOwn(s, k, key);
    }
  }

  /** An id of one type's tags names the same skill, with that type, in the combined dictionary. */
  lemma KindKeyShared(s: Skills, k: SkillKind, key: string)
    requires key in KeyMap(KindTags(s.Of(k), k))
    ensures key in KeyMap(TagSkills(s))
    ensures KeyMap(TagSkills(s))[key] == SkillEntry(k, KeyMap(KindTags(s.Of(k), k))[key])
  {
    var i := KeyAt(KindTags(s.Of(k), k), key);
    TagSkillsAt(s, k, i);
    KeyIn(TagSkills(s), Offset(s, k) + i);
  }

  /** An id of the combined dictionary whose skill has type `k` is an id of that type's tags. */
  lemma KindKeyOwn(s: Skills, k: SkillKind, key: string)
    requires key in KeyMap(TagSkills(s)) && KeyMap(TagSkills(s))[key].kind == k
    ensures key in KeyMap(KindTags(s.Of(k), k))
  {
    var j := KeyAt(TagSkills(s), key);
    TagSkillsKind(s, j);
    KeyIn(KindTags(s.Of(k), k), j - Offset(s, k));
  }

  /** The skill ids the page shows, in the order it shows them. */
  function CurrentSkillOrder(s: Skills): seq<string>
  {
    Keys(TagSkills(s))
  }

  /** Submitting the order the page shows leaves both skill lists as they were. */
  lemma ReorderSkillsIdentity(s: Skills)
    ensures ReorderSkills(s, CurrentSkillOrder(s)) == s
  {
    ReorderedIdentity(TagSkills(s));
    SplitTagged(s);
  }

  /** Splitting the page's tagged skills by type gives the two stored lists back. */
  lemma SplitTagged(s: Skills)
    ensures OfKind(Items(TagSkills(s)), Technical) == s.technical
    ensures OfKind(Items(TagSkills(s)), Soft) == s.soft
  {
    var tech := Items(TagKind(s.technical, Technical));
    var soft := Items(TagKind(s.soft, Soft));
    assert Items(TagSkills(s)) == tech + soft;
    OfKindAppend(tech, soft, Technical);
    OfKindAppend(tech, soft, Soft);
    OfKindOwnTags(s.technical, Technical, Soft);
    OfKindOwnTags(s.soft, Soft, Technical);
  }

  // --------------------------------------------------------------- projects

  /** Every project tagged with `str(position)`; the ids are distinct. */
  function TagProjects(ps: seq<Project>): (r: seq<Tagged<Project>>)
    ensures |r| == |ps|
    ensures forall i :: 0 <= i < |r| ==> r[i].key == NatToString(i) && r[i].item == ps[i]
    ensures DistinctKeys(r)
  {
    var r := seq(|ps|, i requires 0 <= i < |ps| => Tagged(NatToString(i), ps[i]));
    assert DistinctKeys(r) by {
      forall i, j | 0 <= i < j < |r| ensures r[i].key != r[j].key {
        if r[i].key == r[j].key {
          NatToStringInjective(i, j);
        }
      }
    }
    r
  }

  /**
   * The project list after a reorder; it replaces the stored list in place.
   * Every kept id is the position of a stored project, written in decimal,
   * and the `j`-th new project is the stored project at the position the
   * `j`-th kept id names.
   */
  function ReorderProjects(ps: seq<Project>, order: seq<string>): (r: seq<Project>)
    ensures |r| <= |order|
    ensures |r| == |Known(KeyMap(TagProjects(ps)), order)|
    ensures forall j :: 0 <= j < |r| ==> Known(KeyMap(TagProjects(ps)), order)[j] in Keys(TagProjects(ps))
    ensures forall i, j :: 0 <= i < |ps| && 0 <= j < |r| && Known(KeyMap(TagProjects(ps)), order)[j] == NatToString(i)
              ==> r[j] == ps[i]
  {
    var ts := TagProjects(ps);
    var r := Reordered(ts, order);
    assert forall i :: 0 <= i < |ps| ==> ts[i].key == NatToString(i) && ts[i].item == ps[i];
    r
  }

  /** Submitting `"0"`, `"1"`, ... in order leaves the project list unchanged. */
  lemma ReorderProjectsIdentity(ps: seq<Project>)
    ensures ReorderProjects(ps, Keys(TagProjects(ps))) == ps
  {
    ReorderedIdentity(TagProjects(ps));
  }

  /**
   * The drop policy on three projects A, B, C submitted as `["2", "0", "9"]`:
   * the unknown id is skipped and B, which was not submitted, is gone.
   */
  lemma ReorderProjectsDrops(a: Project, b: Project, c: Project)
    ensures ReorderProjects([a, b, c], ["2", "0", "9"]) == [c, a]
  {
    var m := KeyMap(TagProjects([a, b, c]));
    ThreeProjectIds(a, b, c);
    var order := ["2", "0", "9"];
    assert order[1..] == ["0", "9"] && order[1..][1..] == ["9"];
    assert Pick(m, ["9"]) == [];
    assert Pick(m, ["0", "9"]) == [a];
  }

  /** The ids of three projects are "0", "1" and "2". */
  lemma ThreeProjectIds(a: Project, b: Project, c: Project)
    ensures var m := KeyMap(TagProjects([a, b, c]));
            "0" in m && m["0"] == a && "2" in m && m["2"] == c && "9" !in m
  {
    var ts := TagProjects([a, b, c]);
    assert ts[0] == Tagged("0", a) && ts[1] == Tagged("1", b) && ts[2] == Tagged("2", c);
    assert Keys(ts) == ["0", "1", "2"];
  }
}
