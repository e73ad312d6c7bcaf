/**
 * The building tables of the four campuses (Busan, Yangsan, Miryang and
 * Ami hospital) and the lookup of a building code in their merge.
 */
module Campus {

  const UnknownBuilding: string := "알 수 없는 건물"

  /** The Busan campus, grouped by the first character of the code. */
  const Busan: map<string, string> :=
    Busan100 + Busan200 + Busan300 + Busan400 + Busan500 + Busan600 + Busan700 + BusanK

  const Busan100: map<string, string> := map[
    "101" := "MEMS / NANO 클린룸동",
    "102" := "IT관(건축중)",
    "103" := "제12 공학관",
    "105" := "제3 공학관(융합기계관)",
    "106" := "효원문화회관",
    "107" := "제8 공학관(항공관)",
    "108" := "제9 공학관(기전관)",
    "109" := "공과대학 공동실험관",
    "110" := "에너지분야 실험실",
    "111" := "실험폐기물처리장"
  ]

  const Busan200: map<string, string> := map[
    "201" := "제6 공학관(컴퓨터공학관)",
    "202" := "운죽정",
    "203" := "넉넉한터",
    "204" := "넉넉한터 지하주차장",
    "205" := "대학본부",
    "206" := "제11 공학관(조선해양공학관)",
    "207" := "제10 공학관(특성화공학관)",
    "208" := "기계기술연구동",
    "209" := "상남국제관",
    "210" := "언어교육원",
    "211" := "보육종합센터"
  ]

  const Busan300: map<string, string> := map[
    "301" := "구조실험동",
    "302" := "토조실험동",
    "303" := "기계관",
    "306" := "인문관",
    "307" := "인문대교수연구동",
    "308" := "제1 물리관",
    "309" := "제2 물리관",
    "310" := "문창회관",
    "311" := "공동연구기기동",
    "312" := "공동실험실습관",
    "313" := "자연대 연구실험동",
    "314" := "정보화교육관",
    "315" := "자유관 A동",
    "316" := "자유관 B동",
    "317" := "직장어린이집",
    "318" := "자유주차장"
  ]

  const Busan400: map<string, string> := map[
    "401" := "건설관",
    "402" := "정학관",
    "403" := "10. 16 기념관",
    "405" := "제2 공학관(재료관)",
    "406" := "제7 공학관(화공관)",
    "407" := "선박예인수조연구동",
    "408" := "제5 공학관(유기소재관)",
    "409" := "교수회관",
    "410" := "선박충격ㆍ피로ㆍ도장ㆍ시험연구동",
    "412" := "박물관 A",
    "413" := "박물관 B",
    "414" := "지구관",
    "415" := "샛벌회관",
    "416" := "생물관",
    "417" := "제1 사범관",
    "418" := "제2 교수연구동",
    "419" := "금정회관",
    "420" := "새벽벌도서관",
    "421" := "사회관",
    "422" := "성학관"
  ]

  const Busan500: map<string, string> := map[
    "501" := "첨단과학관",
    "503" := "약학관",
    "506" := "효원산학협동관",
    "507" := "인덕관",
    "508" := "산학협동관",
    "509" := "박물관 별관",
    "510" := "중앙도서관",
    "511" := "간이체육관",
    "512" := "테니스장",
    "513" := "철골주차장",
    "514" := "경영관",
    "515" := "중앙도서관 및 정보화본부",
    "516" := "경제통상관"
  ]

  const Busan600: map<string, string> := map[
    "601" := "예술관",
    "602" := "생활과학관 강의동",
    "603" := "생활과학관 연구동",
    "605" := "학군단",
    "606" := "화학관",
    "607" := "수학관·공동연구소동",
    "608" := "제2 법학관",
    "609" := "법학관"
  ]

  const Busan700: map<string, string> := map[
    "701" := "제2 사범관",
    "702" := "조소실",
    "703" := "미술관",
    "704" := "조형관",
    "705" := "경암체육관 교수연구동",
    "706" := "경암체육관",
    "707" := "음악관",
    "708" := "학생회관",
    "709" := "과학기술연구동",
    "710" := "대운동장",
    "711" := "효원재",
    "712" := "웅비관 A동",
    "713" := "웅비관 B동",
    "714" := "진리관 관리동",
    "715" := "진리관 가동",
    "716" := "진리관 나동",
    "717" := "진리관 다동"
  ]

  const BusanK: map<string, string> := map[
    "K05" := "변전실",
    "K08" := "공과대학 제2별관"
  ]


  const Yangsan: map<string, string> := map[
    "Y01" := "경암의학관",
    "Y02" := "치의학전문대학원",
    "Y03" := "한의학전문대학원",
    "Y04" := "간호대학",
    "Y05" := "행림관",
    "Y06" := "지진방재연구센터",
    "Y07" := "파워플랜트",
    "Y08" := "쓰레기집하장",
    "Y09" := "나래관",
    "Y10" := "의생명과학도서관",
    "Y11" := "충격공학연구센터 시험연구동",
    "Y12" := "운동장",
    "Y13" := "테니스장",
    "Y14" := "한국 그린인프라·저영향개발 센터",
    "Y15" := "첨단의생명융합센터",
    "Y16" := "지행관",
    "Y17" := "경암공학관",
    "YH01" := "양산부산대학교병원",
    "YH02" := "어린이병원",
    "YH03" := "치과병원",
    "YH04" := "한방병원",
    "YH05" := "재활병원",
    "YH06" := "전문질환센터",
    "YH07" := "한의약임상연구센터",
    "YH08" := "편의시설동",
    "YH09" := "교수연구동ㆍ행정동",
    "YH11" := "의생명창의연구동",
    "YH12" := "직장어린이집",
    "YH13" := "로날드맥도날드하우스",
    "YH14" := "직원기숙사",
    "YH15" := "한방병원원외탕전실"
  ]

  const Miryang: map<string, string> := map[
    "M01" := "행정지원본부동",
    "M01-1" := "나노생명과학도서관",
    "M02" := "나노과학기술관",
    "M03" := "생명자원과학관",
    "M04" := "학생회관",
    "M05" := "비마관 및 매화관(기숙사)",
    "M05-1" := "청학관",
    "M06" := "종합실험실습관",
    "M07" := "정문수위실",
    "M08" := "운동장",
    "M09" := "공동실험실습관",
    "M10" := "테니스장",
    "M11" := "첨단온실"
  ]

  const Ami: map<string, string> := map[
    "AH01" := "A동(본관)",
    "AH04" := "B동(외래센터)",
    "AH05" := "E동(부산권역 응급의료센터)",
    "AH06" := "C동(부산지역암센터)",
    "AH07" := "CE동(부산지역암센터 별관)",
    "AH08" := "주차타워",
    "AH09" := "H동(복지동)",
    "AH10" := "J동(장기려관)",
    "AH20" := "의생명연구원"
  ]

  /** The merged table; a later campus wins on a shared code, as in a dict merge. */
  const AllCampuses: map<string, string> := Busan + Yangsan + Miryang + Ami

  /** `search_campus(code)`: the building name for `code`, or the unknown-building text. */
  function SearchCampus(code: string): string
  {
    if code in AllCampuses then AllCampuses[code] else UnknownBuilding
  }

  /** The shape of a Busan code: three characters, not starting with another campus's letter. */
  predicate BusanShaped(k: string)
  {
    |k| == 3 && k[0] != 'Y' && k[0] != 'M' && k[0] != 'A'
  }

  /** No Busan code starts with the letter of another campus. */
  lemma BusanCodes()
    ensures forall k :: k in Busan ==> BusanShaped(k)
  {
    Busan100Codes();
    Busan200Codes();
    Busan300Codes();
    Busan400Codes();
    Busan500Codes();
    Busan600Codes();
    Busan700Codes();
    BusanKCodes();
    MergeShaped(Busan100, Busan200, Busan300, Busan400, Busan500, Busan600, Busan700, BusanK);
  }

  /** A merge of tables whose keys all have the Busan shape has only such keys. */
  lemma MergeShaped(m1: map<string, string>, m2: map<string, string>, m3: map<string, string>,
                    m4: map<string, string>, m5: map<string, string>, m6: map<string, string>,
                    m7: map<string, string>, m8: map<string, string>)
    requires forall k :: k in m1 ==> BusanShaped(k)
    requires forall k :: k in m2 ==> BusanShaped(k)
    requires forall k :: k in m3 ==> BusanShaped(k)
    requires forall k :: k in m4 ==> BusanShaped(k)
    requires forall k :: k in m5 ==> BusanShaped(k)
    requires forall k :: k in m6 ==> BusanShaped(k)
    requires forall k :: k in m7 ==> BusanShaped(k)
    requires forall k :: k in m8 ==> BusanShaped(k)
    ensures forall k :: k in m1 + m2 + m3 + m4 + m5 + m6 + m7 + m8 ==> BusanShaped(k)
  {
  }

  lemma Busan100Codes()
    ensures forall k :: k in Busan100 ==> BusanShaped(k)
  {
  }

  lemma Busan200Codes()
    ensures forall k :: k in Busan200 ==> BusanShaped(k)
  {
  }

  lemma Busan300Codes()
    ensures forall k :: k in Busan300 ==> BusanShaped(k)
  {
  }

  lemma Busan400Codes()
    ensures forall k :: k in Busan400 ==> BusanShaped(k)
  {
  }

  lemma Busan500Codes()
    ensures forall k :: k in Busan500 ==> BusanShaped(k)
  {
  }

  lemma Busan600Codes()
    ensures forall k :: k in Busan600 ==> BusanShaped(k)
  {
  }

  lemma Busan700Codes()
    ensures forall k :: k in Busan700 ==> BusanShaped(k)
  {
  }

  lemma BusanKCodes()
    ensures forall k :: k in BusanK ==> BusanShaped(k)
  {
  }

  lemma YangsanCodes()
    ensures forall k :: k in Yangsan ==> |k| >= 3 && k[0] == 'Y'
  {
  }

  lemma MiryangCodes()
    ensures forall k :: k in Miryang ==> |k| >= 3 && k[0] == 'M'
  {
  }

  lemma AmiCodes()
    ensures forall k :: k in Ami ==> |k| == 4 && k[0] == 'A'
  {
  }

  /**
   * Each code belongs to at most one campus, so `search_campus` gives the
   * entry of the campus that lists it, and the unknown-building text for a
   * code that no campus lists.
   */
  lemma SearchCampusLookup(code: string)
    ensures code in Busan ==> SearchCampus(code) == Entry(Busan, code)
    ensures code in Yangsan ==> SearchCampus(code) == Entry(Yangsan, code)
    ensures code in Miryang ==> SearchCampus(code) == Entry(Miryang, code)
    ensures code in Ami ==> SearchCampus(code) == Entry(Ami, code)
    ensures code !in Busan && code !in Yangsan && code !in Miryang && code !in Ami ==>
      SearchCampus(code) == UnknownBuilding
  {
    CampusOf(code);
    Merged(code);
    Pick(Busan, Yangsan, Miryang, Ami, code, SearchCampus(code));
  }

  /** `search_campus` on the merge: the last campus table that has the code. */
  lemma Merged(code: string)
    ensures SearchCampus(code) == (if code in Ami then Entry(Ami, code)
                  else if code in Miryang then Entry(Miryang, code)
                  else if code in Yangsan then Entry(Yangsan, code)
                  else Entry(Busan, code))
  {
    MergeEntry(Busan, Yangsan, Miryang, Ami, code);
  }

  /** Entry of a four-way merge: the last table that has the key. */
  lemma MergeEntry(b: map<string, string>, y: map<string, string>, m: map<string, string>,
                   a: map<string, string>, k: string)
    ensures Entry(b + y + m + a, k) ==
              (if k in a then Entry(a, k) else if k in m then Entry(m, k) else if k in y then Entry(y, k) else Entry(b, k))
  {
    MergeLookup(b, y, k);
    MergeLookup(b + y, m, k);
    MergeLookup(b + y + m, a, k);
  }

  /** With tables that share no key, the last table having the key is the only one. */
  lemma Pick(b: map<string, string>, y: map<string, string>, m: map<string, string>,
             a: map<string, string>, k: string, e: string)
    requires k in b ==> k !in y && k !in m && k !in a
    requires k in y ==> k !in m && k !in a
    requires k in m ==> k !in a
    requires e == (if k in a then Entry(a, k) else if k in m then Entry(m, k) else if k in y then Entry(y, k) else Entry(b, k))
    ensures k in b ==> e == Entry(b, k)
    ensures k in y ==> e == Entry(y, k)
    ensures k in m ==> e == Entry(m, k)
    ensures k in a ==> e == Entry(a, k)
    ensures k !in b && k !in y && k !in m && k !in a ==> e == UnknownBuilding
  {
  }

  /** The entry of one campus table, or the unknown-building text. */
  function Entry(table: map<string, string>, code: string): string
  {
    if code in table then table[code] else UnknownBuilding
  }

  /** A code is listed by at most one campus. */
  lemma CampusOf(code: string)
    ensures code in Busan ==> code !in Yangsan && code !in Miryang && code !in Ami
    ensures code in Yangsan ==> code !in Miryang && code !in Ami
    ensures code in Miryang ==> code !in Ami
  {
    BusanCodes();
    YangsanCodes();
    MiryangCodes();
    AmiCodes();
    KeysApart(Busan, Yangsan, Miryang, Ami, code);
  }

  /** Tables keyed by differently shaped codes share no key. */
  lemma KeysApart(b: map<string, string>, y: map<string, string>, m: map<string, string>,
                  a: map<string, string>, code: string)
    requires forall k :: k in b ==> BusanShaped(k)
    requires forall k :: k in y ==> |k| >= 3 && k[0] == 'Y'
    requires forall k :: k in m ==> |k| >= 3 && k[0] == 'M'
    requires forall k :: k in a ==> |k| == 4 && k[0] == 'A'
    ensures code in b ==> code !in y && code !in m && code !in a
    ensures code in y ==> code !in m && code !in a
    ensures code in m ==> code !in a
  {
  }

  /** Looking a key up in a merged map (the right-hand map wins). */
  lemma MergeLookup(m1: map<string, string>, m2: map<string, string>, k: string)
    ensures k in m1 + m2 <==> k in m1 || k in m2
    ensures k in m2 ==> (m1 + m2)[k] == m2[k]
    ensures k in m1 && k !in m2 ==> (m1 + m2)[k] == m1[k]
  {
  }
}
