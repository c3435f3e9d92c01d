/**
 * The mastery map's display policy: the catalog grouped by subject, the status shown for
 * each topic, and which topics can be picked. Nothing here writes the status map.
 */
module MasteryMap {
  import opened Wrappers
  import opened Types
  import opened Constants
  import Seqs

  /** Reference definition: the catalog entries of one subject, in catalog order. */
  function OfSubject(topics: seq<TopicNode>, s: Subject): seq<TopicNode>
    decreases |topics|
  {
    if |topics| == 0 then []
    else
      var k := |topics| - 1;
      OfSubject(topics[..k], s) + (if topics[k].subject == s then [topics[k]] else [])
  }

  /** A subject's list holds exactly the catalog entries of that subject. */
  lemma {:induction false} OfSubjectMembers(topics: seq<TopicNode>, s: Subject)
    ensures forall t :: t in OfSubject(topics, s) <==> t in topics && t.subject == s
    decreases |topics|
  {
    if |topics| > 0 {
      var k := |topics| - 1;
      assert topics == topics[..k] + [topics[k]];
      OfSubjectMembers(topics[..k], s);
    }
  }

  /**
   * The `reduce` that builds `groupedTopics`: a subject gets a group on its first topic,
   * and each topic is pushed onto its subject's group.
   */
  function Group(topics: seq<TopicNode>): (g: map<Subject, seq<TopicNode>>)
    ensures forall s :: SubjectTopics(g, s) == OfSubject(topics, s)
    ensures forall s :: s in g ==> g[s] != []
    decreases |topics|
  {
    if |topics| == 0 then map[]
    else
      var k := |topics| - 1;
      var acc := Group(topics[..k]);
      var t := topics[k];
      var group := if t.subject in acc then acc[t.subject] else [];
      acc[t.subject := group + [t]]
  }

  /** Each entry occurs in its own subject's list as often as in the catalog, and in no other list. */
  lemma {:induction false} OfSubjectCount(topics: seq<TopicNode>, s: Subject, t: TopicNode)
    ensures multiset(OfSubject(topics, s))[t] == if t.subject == s then multiset(topics)[t] else 0
    decreases |topics|
  {
    if |topics| > 0 {
      var k := |topics| - 1;
      var pre, x := topics[..k], topics[k];
      assert topics == pre + [x];
      OfSubjectCount(pre, s, t);
      assert multiset(topics)[t] == multiset(pre)[t] + (if x == t then 1 else 0);
    }
  }

  /** Filtering keeps a duplicate-free catalog duplicate-free. */
  lemma {:induction false} OfSubjectNoDup(topics: seq<TopicNode>, s: Subject)
    requires Seqs.NoDup(topics)
    ensures Seqs.NoDup(OfSubject(topics, s))
    decreases |topics|
  {
    if |topics| > 0 {
      var k := |topics| - 1;
      assert Seqs.NoDup(topics[..k]);
      OfSubjectNoDup(topics[..k], s);
      OfSubjectMembers(topics[..k], s);
      assert topics[k] !in topics[..k];
    }
  }

  /** `groupedTopics[subject] || []`. */
  function SubjectTopics(g: map<Subject, seq<TopicNode>>, s: Subject): seq<TopicNode> {
    if s in g then g[s] else []
  }

  /** In a duplicate-free list, every topic sits exactly once in its own subject's group and in no other. */
  lemma GroupPartition(topics: seq<TopicNode>, t: TopicNode)
    requires Seqs.NoDup(topics) && t in topics
    ensures multiset(SubjectTopics(Group(topics), t.subject))[t] == 1
    ensures forall s :: s != t.subject ==> t !in SubjectTopics(Group(topics), s)
  {
    Seqs.NoDupCount(topics, t);
    forall s ensures multiset(SubjectTopics(Group(topics), s))[t] == if s == t.subject then 1 else 0 {
      OfSubjectCount(topics, s, t);
    }
  }

  /** Every catalog topic sits exactly once in its own subject's group and in no other. */
  lemma CatalogPartition(t: TopicNode)
    requires t in Topics
    ensures multiset(SubjectTopics(Group(Topics), t.subject))[t] == 1
    ensures forall s :: s != t.subject ==> t !in SubjectTopics(Group(Topics), s)
  {
    TopicIdsUnique();
    GroupPartition(Topics, t);
  }

  /** The catalog id that opens each subject's group. */
  function FirstTopicId(s: Subject): string {
    match s
    case Math => "math_num"
    case Physics => "phy_mec"
    case Chemistry => "chem_stoich"
    case Biology => "bio_cell"
  }

  /** In the catalog every subject has topics, and its group opens with the expected one. */
  lemma CatalogGroupHead(s: Subject)
    ensures s in Group(Topics) && Group(Topics)[s][0].id == FirstTopicId(s)
  {
    var i := match s case Math => 0 case Physics => 3 case Chemistry => 6 case Biology => 9;
    FirstOfSubject(Topics, i, s);
    assert SubjectTopics(Group(Topics), s) == OfSubject(Topics, s);
  }

  /** A topic preceded by no topic of its subject heads that subject's group. */
  lemma {:induction false} FirstOfSubject(topics: seq<TopicNode>, i: nat, s: Subject)
    requires i < |topics| && topics[i].subject == s
    requires forall j :: 0 <= j < i ==> topics[j].subject != s
    ensures |OfSubject(topics, s)| > 0 && OfSubject(topics, s)[0] == topics[i]
    decreases |topics|
  {
    var k := |topics| - 1;
    if k > i {
      FirstOfSubject(topics[..k], i, s);
    } else {
      OfSubjectNone(topics[..k], s);
    }
  }

  /** A list with no entry of a subject yields an empty list for it. */
  lemma {:induction false} OfSubjectNone(topics: seq<TopicNode>, s: Subject)
    requires forall j :: 0 <= j < |topics| ==> topics[j].subject != s
    ensures OfSubject(topics, s) == []
    decreases |topics|
  {
    if |topics| > 0 {
      OfSubjectNone(topics[..|topics| - 1], s);
    }
  }

  /** `masteryData[topic.id] || 'locked'`: an absent entry counts as locked. */
  function StoredStatus(masteryData: map<string, TopicStatus>, id: string): TopicStatus {
    if id in masteryData then masteryData[id] else Locked
  }

  /** The status a tile shows: the first topic of its group shows a stored `Locked` as `Learning`. */
  function DisplayStatus(masteryData: map<string, TopicStatus>, group: seq<TopicNode>, topic: TopicNode): TopicStatus {
    var status := StoredStatus(masteryData, topic.id);
    if status == Locked && Seqs.IndexOf(group, topic) == 0 then Learning else status
  }

  /** In a duplicate-free group, the override applies exactly to a locked first topic. */
  lemma DisplayStatusOverride(masteryData: map<string, TopicStatus>, group: seq<TopicNode>, k: nat)
    requires Seqs.NoDup(group) && k < |group|
    ensures var stored, shown := StoredStatus(masteryData, group[k].id), DisplayStatus(masteryData, group, group[k]);
      && (stored == Locked && k == 0 ==> shown == Learning)
      && (stored != Locked || k != 0 ==> shown == stored)
      && (group[k].id !in masteryData ==> stored == Locked)
  {
    Seqs.IndexOfDistinct(group, k);
  }

  /** The first topic of a non-empty group is never shown locked. */
  lemma FirstNeverLocked(masteryData: map<string, TopicStatus>, group: seq<TopicNode>)
    requires |group| > 0
    ensures DisplayStatus(masteryData, group, group[0]) != Locked
  {
  }

  /** Clicking a tile: the topic is handed to the selection handler only if it is not shown locked. */
  function Click(masteryData: map<string, TopicStatus>, group: seq<TopicNode>, topic: TopicNode): (picked: Option<TopicNode>)
    ensures picked.Some? <==> DisplayStatus(masteryData, group, topic) != Locked
    ensures picked.Some? ==> picked.value == topic
  {
    if DisplayStatus(masteryData, group, topic) != Locked then Some(topic) else None
  }

  /** With no stored statuses, exactly the first topic of each catalog subject can be picked. */
  lemma FreshMapSelectable(s: Subject, k: nat)
    requires k < |SubjectTopics(Group(Topics), s)|
    ensures var group := SubjectTopics(Group(Topics), s);
      Click(map[], group, group[k]).Some? <==> k == 0
  {
    var group := SubjectTopics(Group(Topics), s);
    TopicIdsUnique();
    OfSubjectNoDup(Topics, s);
    DisplayStatusOverride(map[], group, k);
  }

  /** The subjects that get a section, in key order; a subject with no topics renders nothing. */
  function RenderedSubjects(g: map<Subject, seq<TopicNode>>, keys: seq<Subject>): (r: seq<Subject>)
    ensures forall s :: s in r <==> s in keys && |SubjectTopics(g, s)| > 0
    decreases |keys|
  {
    if |keys| == 0 then []
    else
      var k := |keys| - 1;
      assert keys == keys[..k] + [keys[k]];
      RenderedSubjects(g, keys[..k]) + (if |SubjectTopics(g, keys[k])| > 0 then [keys[k]] else [])
  }

  /** Sections follow the order of the subject keys. */
  lemma {:induction false} RenderedSubjectsOrder(g: map<Subject, seq<TopicNode>>, keys: seq<Subject>)
    requires Seqs.NoDup(keys)
    ensures Seqs.OrderedBy(keys, RenderedSubjects(g, keys))
    decreases |keys|
  {
    if |keys| > 0 {
      var k := |keys| - 1;
      var pre, last := keys[..k], keys[k];
      assert keys == pre + [last];
      assert Seqs.NoDup(pre);
      RenderedSubjectsOrder(g, pre);
      Seqs.OrderedByAppend(pre, RenderedSubjects(g, pre), last);
    }
  }

  /** On the catalog, all four subjects get a section, in key order. */
  lemma CatalogSections()
    ensures RenderedSubjects(Group(Topics), SubjectKeys) == SubjectKeys
  {
    CatalogGroupHead(Math);
    CatalogGroupHead(Physics);
    CatalogGroupHead(Chemistry);
    CatalogGroupHead(Biology);
    SubjectKeysExact();
    AllRendered(Group(Topics), SubjectKeys);
  }

  /** When every listed subject has topics, every one of them gets a section. */
  lemma {:induction false} AllRendered(g: map<Subject, seq<TopicNode>>, keys: seq<Subject>)
    requires forall s :: s in keys ==> |SubjectTopics(g, s)| > 0
    ensures RenderedSubjects(g, keys) == keys
    decreases |keys|
  {
    if |keys| > 0 {
      var k := |keys| - 1;
      assert keys == keys[..k] + [keys[k]];
      AllRendered(g, keys[..k]);
    }
  }

  /** ASCII upper-casing of one character. */
  function UpperAscii(c: char): char {
    if 'a' <= c <= 'z' then (c as int - 32) as char else c
  }

  function ToUpper(s: string): (r: string)
    ensures |r| == |s|
    ensures forall i :: 0 <= i < |s| ==> r[i] == UpperAscii(s[i])
  {
    seq(|s|, i requires 0 <= i < |s| => UpperAscii(s[i]))
  }

  /**
   * A tile's badge, `id.split('_')[1].toUpperCase()`: the text between the first and the
   * second `_`, upper-cased. `None` stands for the failure on an id without `_`.
   */
  function Badge(id: string): (b: Option<string>)
    ensures b.Some? <==> '_' in id
    ensures b.Some? ==> '_' !in b.value && |b.value| < |id|
  {
    var i := Seqs.IndexOf(id, '_');
    if i < 0 then None
    else
      var rest := id[i + 1..];
      var j := Seqs.IndexOf(rest, '_');
      var segment := if j < 0 then rest else rest[..j];
      assert forall c :: c in segment ==> c in rest;
      Some(ToUpper(segment))
  }

  /** An id `p_q` whose parts hold no `_` shows `q` upper-cased. */
  lemma BadgeOfParts(p: string, q: string)
    requires '_' !in p && '_' !in q
    ensures Badge(p + "_" + q) == Some(ToUpper(q))
  {
    var id := p + "_" + q;
    assert id[|p|] == '_';
    assert forall j :: 0 <= j < |p| ==> id[j] == p[j];
    var i := Seqs.IndexOf(id, '_');
    assert i == |p|;
    assert id[i + 1..] == q;
  }

  /** The two parts of each catalog id, around its `_`. */
  function CatalogIdParts(i: nat): (string, string) {
    match i
    case 0 => ("math", "num")
    case 1 => ("math", "geo")
    case 2 => ("math", "poly")
    case 3 => ("phy", "mec")
    case 4 => ("phy", "energy")
    case 5 => ("phy", "elec")
    case 6 => ("chem", "stoich")
    case 7 => ("chem", "gas")
    case 8 => ("chem", "acid")
    case 9 => ("bio", "cell")
    case _ => ("bio", "gen")
  }

  /** Every catalog id has a non-empty badge: its part after the `_`, upper-cased. */
  lemma CatalogBadge(i: nat)
    requires i < |Topics|
    ensures var (p, q) := CatalogIdParts(i);
      Topics[i].id == p + "_" + q && Badge(Topics[i].id) == Some(ToUpper(q)) && |q| > 0
  {
    var (p, q) := CatalogIdParts(i);
    assert Topics[i].id == p + "_" + q;
    BadgeOfParts(p, q);
  }

  /** The badge of the first math topic. */
  lemma MathNumBadge()
    ensures Badge("math_num") == Some("NUM")
  {
    assert "math" + "_" + "num" == "math_num";
    BadgeOfParts("math", "num");
    assert ToUpper("num") == "NUM";
  }
}
