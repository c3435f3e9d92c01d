/** Seed data: the subject keys, the initial progress record, the topic catalog and the XP constants. */
module Constants {
  import opened Types
  import Seqs

  /** Experience awarded per correct answer. */
  const XpPerCorrect: int := 50

  /** Experience needed per level. */
  const XpLevelUpBase: int := 500

  /** The keys of `SUBJECTS`, in declaration order (the order screens list subjects in). */
  const SubjectKeys: seq<Subject> := [Math, Physics, Chemistry, Biology]

  /** The key list names every subject exactly once. */
  lemma SubjectKeysExact()
    ensures Seqs.NoDup(SubjectKeys)
    ensures forall s: Subject :: s in SubjectKeys
    ensures |SubjectKeys| == 4
  {
    forall s: Subject ensures s in SubjectKeys {
      match s
      case Math => assert SubjectKeys[0] == s;
      case Physics => assert SubjectKeys[1] == s;
      case Chemistry => assert SubjectKeys[2] == s;
      case Biology => assert SubjectKeys[3] == s;
    }
  }

  /**
   * `INITIAL_PROGRESS`. The login date is read from the clock in the original; here it is
   * the parameter `today`.
   */
  function InitialProgress(today: string): (p: UserProgress)
    ensures p.xp == 0 && p.level == 1
    ensures p.topicMastery == map[] && p.recentActivity == []
    ensures p.lastLoginDate == today
  {
    UserProgress(
      xp := 0,
      level := 1,
      streak := 1,
      lastLoginDate := today,
      subjectMastery := SubjectScores(math := 20, physics := 15, chemistry := 10, biology := 5),
      topicMastery := map[],
      recentActivity := [])
  }

  /** `TOPICS`: the static topic catalog, grouped by subject in the source's order. */
  const Topics: seq<TopicNode> := [
    TopicNode("math_num", "數論與同餘", Math, "模運算、費馬小定理基礎"),
    TopicNode("math_geo", "平面幾何進階", Math, "圓冪性質、孟氏定理"),
    TopicNode("math_poly", "多項式與函數", Math, "根與係數、插值多項式"),
    TopicNode("phy_mec", "牛頓力學應用", Physics, "斜面、滑輪與摩擦力綜合"),
    TopicNode("phy_energy", "功與能量", Physics, "力學能守恆、彈性碰撞"),
    TopicNode("phy_elec", "基本電路學", Physics, "克希荷夫定律初步、電功率"),
    TopicNode("chem_stoich", "化學計量", Chemistry, "限量試劑、濃度換算"),
    TopicNode("chem_gas", "氣體定律", Chemistry, "理想氣體方程式、分壓"),
    TopicNode("chem_acid", "酸鹼鹽", Chemistry, "pH值計算、中和滴定"),
    TopicNode("bio_cell", "細胞生理", Biology, "胞器功能、滲透壓"),
    TopicNode("bio_gen", "遺傳法則", Biology, "孟德爾遺傳、性聯遺傳")
  ]

  /** The ids of the catalog, in order. */
  function TopicIds(topics: seq<TopicNode>): (ids: seq<string>)
    ensures |ids| == |topics|
    ensures forall i :: 0 <= i < |topics| ==> ids[i] == topics[i].id
  {
    seq(|topics|, i requires 0 <= i < |topics| => topics[i].id)
  }

  /** Catalog ids are unique, so topics are told apart by value as the source tells them apart by reference. */
  lemma TopicIdsUnique()
    ensures Seqs.NoDup(TopicIds(Topics))
    ensures Seqs.NoDup(Topics)
  {
    var ids := TopicIds(Topics);
    assert ids == ["math_num", "math_geo", "math_poly", "phy_mec", "phy_energy", "phy_elec",
                   "chem_stoich", "chem_gas", "chem_acid", "bio_cell", "bio_gen"];
  }
}
