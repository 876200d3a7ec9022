/**
 * The static MUI widget registry: six categories with their display metadata,
 * and the widget table (key, labels, category, container flag) in declaration
 * order, with the lookups over it. Icons, default props and preview renderers
 * are not part of this model.
 *
 * The table is declared category by category, so it is written here as one
 * constant per category, `Registry` being their concatenation in declaration
 * order; the facts about it are proved per category and then lifted.
 */
module MuiRegistry {
  import opened Optional
  import opened MuiTable

  /** `MUI_CATEGORIES`, in display order. */
  const Categories: seq<CategoryMeta> := [
      CategoryMeta(Layout, "Layout", "레이아웃", "#6366f1", "#eef2ff"),
      CategoryMeta(Inputs, "Inputs", "입력", "#f97316", "#fff7ed"),
      CategoryMeta(DataDisplay, "Data Display", "데이터 표시", "#14b8a6", "#f0fdfa"),
      CategoryMeta(Navigation, "Navigation", "네비게이션", "#ec4899", "#fdf2f8"),
      CategoryMeta(Feedback, "Feedback", "피드백", "#ef4444", "#fef2f2"),
      CategoryMeta(Surfaces, "Surfaces", "서피스", "#64748b", "#f8fafc")
    ]

  // ---------------------------------------------------------------------------
  // `MUI_REGISTRY`: (property name, entry) pairs, per category
  // ---------------------------------------------------------------------------

  const LayoutEntries: seq<(string, ComponentDef)> := [
      ("Container", ComponentDef("Container", "Container", "컨테이너", Layout, true)),
      ("Box", ComponentDef("Box", "Box", "박스", Layout, true)),
      ("Grid", ComponentDef("Grid", "Grid", "그리드", Layout, true)),
      ("Stack", ComponentDef("Stack", "Stack", "스택", Layout, true))
    ]

  const InputsEntries: seq<(string, ComponentDef)> := [
      ("Button", ComponentDef("Button", "Button", "버튼", Inputs, false)),
      ("IconButton", ComponentDef("IconButton", "IconButton", "아이콘 버튼", Inputs, false)),
      ("Fab", ComponentDef("Fab", "FAB", "FAB", Inputs, false)),
      ("TextField", ComponentDef("TextField", "TextField", "텍스트 필드", Inputs, false)),
      ("Select", ComponentDef("Select", "Select", "셀렉트", Inputs, false)),
      ("Checkbox", ComponentDef("Checkbox", "Checkbox", "체크박스", Inputs, false)),
      ("Radio", ComponentDef("Radio", "Radio", "라디오", Inputs, false)),
      ("Switch", ComponentDef("Switch", "Switch", "스위치", Inputs, false)),
      ("Slider", ComponentDef("Slider", "Slider", "슬라이더", Inputs, false)),
      ("Rating", ComponentDef("Rating", "Rating", "평점", Inputs, false)),
      ("Autocomplete", ComponentDef("Autocomplete", "Autocomplete", "자동완성", Inputs, false)),
      ("ToggleButton", ComponentDef("ToggleButton", "ToggleButton", "토글 버튼", Inputs, false)),
      ("ToggleButtonGroup", ComponentDef("ToggleButtonGroup", "ToggleButtonGroup", "토글 버튼 그룹", Inputs, false))
    ]

  const DataDisplayEntries: seq<(string, ComponentDef)> := [
      ("Typography", ComponentDef("Typography", "Typography", "타이포그래피", DataDisplay, false)),
      ("Table", ComponentDef("Table", "Table", "테이블", DataDisplay, true)),
      ("List", ComponentDef("List", "List", "리스트", DataDisplay, true)),
      ("ListItem", ComponentDef("ListItem", "ListItem", "리스트 아이템", DataDisplay, false)),
      ("Chip", ComponentDef("Chip", "Chip", "칩", DataDisplay, false)),
      ("Avatar", ComponentDef("Avatar", "Avatar", "아바타", DataDisplay, false)),
      ("Badge", ComponentDef("Badge", "Badge", "뱃지", DataDisplay, false)),
      ("Divider", ComponentDef("Divider", "Divider", "구분선", DataDisplay, false)),
      ("Tooltip", ComponentDef("Tooltip", "Tooltip", "툴팁", DataDisplay, false)),
      ("ImageList", ComponentDef("ImageList", "ImageList", "이미지 목록", DataDisplay, true))
    ]

  const NavigationEntries: seq<(string, ComponentDef)> := [
      ("AppBar", ComponentDef("AppBar", "AppBar", "앱바", Navigation, true)),
      ("Toolbar", ComponentDef("Toolbar", "Toolbar", "툴바", Navigation, true)),
      ("Tabs", ComponentDef("Tabs", "Tabs", "탭", Navigation, false)),
      ("Breadcrumbs", ComponentDef("Breadcrumbs", "Breadcrumbs", "브레드크럼", Navigation, false)),
      ("Drawer", ComponentDef("Drawer", "Drawer", "드로어", Navigation, true)),
      ("Menu", ComponentDef("Menu", "Menu", "메뉴", Navigation, false)),
      ("BottomNavigation", ComponentDef("BottomNavigation", "BottomNavigation", "하단 네비게이션", Navigation, false)),
      ("Link", ComponentDef("Link", "Link", "링크", Navigation, false)),
      ("Pagination", ComponentDef("Pagination", "Pagination", "페이지네이션", Navigation, false)),
      ("SpeedDial", ComponentDef("SpeedDial", "SpeedDial", "스피드 다이얼", Navigation, false)),
      ("Stepper", ComponentDef("Stepper", "Stepper", "스테퍼", Navigation, false))
    ]

  const FeedbackEntries: seq<(string, ComponentDef)> := [
      ("Alert", ComponentDef("Alert", "Alert", "알림", Feedback, false)),
      ("Dialog", ComponentDef("Dialog", "Dialog", "다이얼로그", Feedback, true)),
      ("Snackbar", ComponentDef("Snackbar", "Snackbar", "스낵바", Feedback, false)),
      ("LinearProgress", ComponentDef("LinearProgress", "LinearProgress", "선형 진행바", Feedback, false)),
      ("CircularProgress", ComponentDef("CircularProgress", "CircularProgress", "원형 진행바", Feedback, false)),
      ("Skeleton", ComponentDef("Skeleton", "Skeleton", "스켈레톤", Feedback, false)),
      ("Backdrop", ComponentDef("Backdrop", "Backdrop", "백드롭", Feedback, false))
    ]

  const SurfacesEntries: seq<(string, ComponentDef)> := [
      ("Card", ComponentDef("Card", "Card", "카드", Surfaces, true)),
      ("Paper", ComponentDef("Paper", "Paper", "페이퍼", Surfaces, true)),
      ("Accordion", ComponentDef("Accordion", "Accordion", "아코디언", Surfaces, true))
    ]

  /** The entries of one category, as declared. */
  function Segment(c: Category): seq<(string, ComponentDef)> {
    GroupOf(LayoutEntries, InputsEntries, DataDisplayEntries, NavigationEntries, FeedbackEntries, SurfacesEntries, c)
  }

  /** The whole table in declaration order, which is the order `Object.values` yields. */
  const Registry: seq<(string, ComponentDef)> :=
    LayoutEntries + InputsEntries + DataDisplayEntries + NavigationEntries + FeedbackEntries + SurfacesEntries

  /** The widgets that are containers outside the layout and surfaces categories. */
  const OtherContainerKeys: seq<string> := ["Table", "List", "ImageList", "AppBar", "Toolbar", "Drawer", "Dialog"]

  /** Each entry is stored under its own key, belongs to `c` and has a Korean label. */
  predicate WellKeyed(s: seq<(string, ComponentDef)>, c: Category) {
    forall i :: 0 <= i < |s| ==> s[i].1.key == s[i].0 && s[i].1.category == c && s[i].1.labelKo != ""
  }

  /** The container rule: layout and surfaces widgets all are, input widgets none are, elsewhere exactly the listed seven. */
  predicate ContainerRule(e: (string, ComponentDef)) {
    if e.1.category == Layout || e.1.category == Surfaces then e.1.isContainer
    else if e.1.category == Inputs then !e.1.isContainer
    else e.1.isContainer <==> e.0 in OtherContainerKeys
  }

  predicate SegmentValid(s: seq<(string, ComponentDef)>, c: Category) {
    WellKeyed(s, c) && KeysDistinct(s) && forall i :: 0 <= i < |s| ==> ContainerRule(s[i])
  }

  // ---------------------------------------------------------------------------
  // Facts about each category's entries
  // ---------------------------------------------------------------------------

  lemma LayoutKeyed() ensures WellKeyed(LayoutEntries, Layout) && KeysDistinct(LayoutEntries) {}
  lemma LayoutContainers() ensures forall i :: 0 <= i < |LayoutEntries| ==> ContainerRule(LayoutEntries[i]) {}
  lemma InputsKeyed() ensures WellKeyed(InputsEntries, Inputs) && KeysDistinct(InputsEntries) {
    InputsLabelled();
    InputsFront();
    InputsBack();
  }
  lemma InputsLabelled() ensures WellKeyed(InputsEntries, Inputs) {}
  lemma InputsFront() ensures forall i, j :: 0 <= i < j < 7 ==> InputsEntries[i].0 != InputsEntries[j].0 {}
  lemma InputsBack() ensures forall i, j :: 0 <= i < j < |InputsEntries| && 7 <= j ==> InputsEntries[i].0 != InputsEntries[j].0 {}
  lemma InputsContainers() ensures forall i :: 0 <= i < |InputsEntries| ==> ContainerRule(InputsEntries[i]) {}
  lemma DataDisplayKeyed() ensures WellKeyed(DataDisplayEntries, DataDisplay) && KeysDistinct(DataDisplayEntries) {
    DataDisplayLabelled();
    DataDisplayFront();
    DataDisplayBack();
  }
  lemma DataDisplayLabelled() ensures WellKeyed(DataDisplayEntries, DataDisplay) {}
  lemma DataDisplayFront() ensures forall i, j :: 0 <= i < j < 5 ==> DataDisplayEntries[i].0 != DataDisplayEntries[j].0 {}
  lemma DataDisplayBack() ensures forall i, j :: 0 <= i < j < |DataDisplayEntries| && 5 <= j ==> DataDisplayEntries[i].0 != DataDisplayEntries[j].0 {}
  lemma DataDisplayContainers() ensures forall i :: 0 <= i < |DataDisplayEntries| ==> ContainerRule(DataDisplayEntries[i]) {}
  lemma NavigationKeyed() ensures WellKeyed(NavigationEntries, Navigation) && KeysDistinct(NavigationEntries) {
    NavigationLabelled();
    NavigationFront();
    NavigationBack();
  }
  lemma NavigationLabelled() ensures WellKeyed(NavigationEntries, Navigation) {}
  lemma NavigationFront() ensures forall i, j :: 0 <= i < j < 6 ==> NavigationEntries[i].0 != NavigationEntries[j].0 {}
  lemma NavigationBack() ensures forall i, j :: 0 <= i < j < |NavigationEntries| && 6 <= j ==> NavigationEntries[i].0 != NavigationEntries[j].0 {}
  lemma NavigationContainers() ensures forall i :: 0 <= i < |NavigationEntries| ==> ContainerRule(NavigationEntries[i]) {}
  lemma FeedbackKeyed() ensures WellKeyed(FeedbackEntries, Feedback) && KeysDistinct(FeedbackEntries) {}
  lemma FeedbackContainers() ensures forall i :: 0 <= i < |FeedbackEntries| ==> ContainerRule(FeedbackEntries[i]) {}
  lemma SurfacesKeyed() ensures WellKeyed(SurfacesEntries, Surfaces) && KeysDistinct(SurfacesEntries) {}
  lemma SurfacesContainers() ensures forall i :: 0 <= i < |SurfacesEntries| ==> ContainerRule(SurfacesEntries[i]) {}

  lemma LayoutFresh()
    ensures KeysDisjoint(LayoutEntries, InputsEntries) && KeysDisjoint(LayoutEntries, DataDisplayEntries)
    ensures KeysDisjoint(LayoutEntries, NavigationEntries) && KeysDisjoint(LayoutEntries, FeedbackEntries)
    ensures KeysDisjoint(LayoutEntries, SurfacesEntries)
  {
    LayoutFreshEarly();
    LayoutFreshLate();
  }
  lemma LayoutFreshEarly()
    ensures KeysDisjoint(LayoutEntries, InputsEntries) && KeysDisjoint(LayoutEntries, DataDisplayEntries)
  {}
  lemma LayoutFreshLate()
    ensures KeysDisjoint(LayoutEntries, NavigationEntries) && KeysDisjoint(LayoutEntries, FeedbackEntries)
    ensures KeysDisjoint(LayoutEntries, SurfacesEntries)
  {}
  lemma InputsFresh1()
    ensures KeysDisjoint(InputsEntries, DataDisplayEntries) && KeysDisjoint(InputsEntries, NavigationEntries)
  {}
  lemma InputsFresh2()
    ensures KeysDisjoint(InputsEntries, FeedbackEntries) && KeysDisjoint(InputsEntries, SurfacesEntries)
  {}
  lemma DataDisplayFresh()
    ensures KeysDisjoint(DataDisplayEntries, NavigationEntries) && KeysDisjoint(DataDisplayEntries, FeedbackEntries)
    ensures KeysDisjoint(DataDisplayEntries, SurfacesEntries)
  {}
  lemma LaterFresh()
    ensures KeysDisjoint(NavigationEntries, FeedbackEntries) && KeysDisjoint(NavigationEntries, SurfacesEntries)
    ensures KeysDisjoint(FeedbackEntries, SurfacesEntries)
  {}

  // ---------------------------------------------------------------------------
  // Lifting the per-category facts to the whole table
  // ---------------------------------------------------------------------------

  /** Each entry is stored under its own key, has a Korean label and obeys the container rule. */
  predicate Sound(s: seq<(string, ComponentDef)>) {
    forall i :: 0 <= i < |s| ==> s[i].1.key == s[i].0 && s[i].1.labelKo != "" && ContainerRule(s[i])
  }

  lemma SoundConcat(a: seq<(string, ComponentDef)>, b: seq<(string, ComponentDef)>)
    requires Sound(a) && Sound(b)
    ensures Sound(a + b)
  {
    forall i | 0 <= i < |a + b|
      ensures (a + b)[i].1.key == (a + b)[i].0 && (a + b)[i].1.labelKo != "" && ContainerRule((a + b)[i])
    {
      if i >= |a| {
        assert (a + b)[i] == b[i - |a|];
      }
    }
  }

  lemma SegmentSound(c: Category)
    ensures Sound(Segment(c)) && KeysDistinct(Segment(c))
    ensures forall i :: 0 <= i < |Segment(c)| ==> Segment(c)[i].1.category == c
  {
    match c
    case Layout => LayoutKeyed(); LayoutContainers();
    case Inputs => InputsKeyed(); InputsContainers();
    case DataDisplay => DataDisplayKeyed(); DataDisplayContainers();
    case Navigation => NavigationKeyed(); NavigationContainers();
    case Feedback => FeedbackKeyed(); FeedbackContainers();
    case Surfaces => SurfacesKeyed(); SurfacesContainers();
  }

  /** No property name of `MUI_REGISTRY` occurs twice, so the table is a map from keys to entries. */
  lemma RegistryKeysDistinct()
    ensures KeysDistinct(Registry)
  {
    SegmentSound(Layout); SegmentSound(Inputs); SegmentSound(DataDisplay);
    SegmentSound(Navigation); SegmentSound(Feedback); SegmentSound(Surfaces);
    LayoutFresh(); InputsFresh1(); InputsFresh2(); DataDisplayFresh(); LaterFresh();
    var a := LayoutEntries + InputsEntries;
    DistinctConcat(LayoutEntries, InputsEntries);
    DisjointConcat(LayoutEntries, InputsEntries, DataDisplayEntries);
    DistinctConcat(a, DataDisplayEntries);
    var b := a + DataDisplayEntries;
    DisjointConcat(LayoutEntries, InputsEntries, NavigationEntries);
    DisjointConcat(a, DataDisplayEntries, NavigationEntries);
    DistinctConcat(b, NavigationEntries);
    var d := b + NavigationEntries;
    DisjointConcat(LayoutEntries, InputsEntries, FeedbackEntries);
    DisjointConcat(a, DataDisplayEntries, FeedbackEntries);
    DisjointConcat(b, NavigationEntries, FeedbackEntries);
    DistinctConcat(d, FeedbackEntries);
    var e := d + FeedbackEntries;
    DisjointConcat(LayoutEntries, InputsEntries, SurfacesEntries);
    DisjointConcat(a, DataDisplayEntries, SurfacesEntries);
    DisjointConcat(b, NavigationEntries, SurfacesEntries);
    DisjointConcat(d, FeedbackEntries, SurfacesEntries);
    DistinctConcat(e, SurfacesEntries);
  }

  lemma RegistrySound()
    ensures Sound(Registry)
  {
    SegmentSound(Layout); SegmentSound(Inputs); SegmentSound(DataDisplay);
    SegmentSound(Navigation); SegmentSound(Feedback); SegmentSound(Surfaces);
    SoundConcat(LayoutEntries, InputsEntries);
    SoundConcat(LayoutEntries + InputsEntries, DataDisplayEntries);
    SoundConcat(LayoutEntries + InputsEntries + DataDisplayEntries, NavigationEntries);
    SoundConcat(LayoutEntries + InputsEntries + DataDisplayEntries + NavigationEntries, FeedbackEntries);
    SoundConcat(LayoutEntries + InputsEntries + DataDisplayEntries + NavigationEntries + FeedbackEntries, SurfacesEntries);
  }

  /** Every entry's `key` field equals the property name it is stored under. */
  lemma RegistryKeysMatch()
    ensures forall i :: 0 <= i < |Registry| ==> Registry[i].1.key == Registry[i].0
  {
    RegistrySound();
  }

  /**
   * Every layout and every surfaces widget is a container; no input widget
   * is; in the other three categories the containers are exactly Table,
   * List, ImageList, AppBar, Toolbar, Drawer and Dialog.
   */
  lemma RegistryContainers()
    ensures forall i :: 0 <= i < |Registry| && (Registry[i].1.category == Layout || Registry[i].1.category == Surfaces) ==>
              Registry[i].1.isContainer
    ensures forall i :: 0 <= i < |Registry| && Registry[i].1.category == Inputs ==> !Registry[i].1.isContainer
    ensures forall i :: 0 <= i < |Registry| && Registry[i].1.category in {DataDisplay, Navigation, Feedback} ==>
              (Registry[i].1.isContainer <==> Registry[i].0 in OtherContainerKeys)
  {
    RegistrySound();
  }

  // ---------------------------------------------------------------------------
  // The helper functions
  // ---------------------------------------------------------------------------

  /** `getMuiComponentsByCategory`: the entries of the category, in table order. */
  function ComponentsByCategory(c: Category): (r: seq<ComponentDef>) {
    Filter(Registry, c)
  }

  /** `getMuiComponentsByCategory` returns exactly the category's entries, in declaration order. */
  lemma ComponentsByCategoryInOrder(c: Category)
    ensures ComponentsByCategory(c) == Values(Segment(c))
  {
    SegmentSound(Layout); SegmentSound(Inputs); SegmentSound(DataDisplay);
    SegmentSound(Navigation); SegmentSound(Feedback); SegmentSound(Surfaces);
    FilterGrouped(LayoutEntries, InputsEntries, DataDisplayEntries, NavigationEntries, FeedbackEntries, SurfacesEntries, c);
  }

  /** A widget is listed for a category exactly when it is in the table with that category. */
  lemma ComponentsByCategoryMembers(c: Category)
    ensures forall d :: d in ComponentsByCategory(c) <==> d in Values(Registry) && d.category == c
  {
    FilterMembers(Registry, c);
  }

  /** `getMuiComponent`: `MUI_REGISTRY[key]`. */
  function GetComponent(key: string): (r: Option<ComponentDef>)
    ensures r.None? <==> forall i :: 0 <= i < |Registry| ==> Registry[i].0 != key
    ensures r.Some? ==> r.value.key == key
  {
    RegistryKeysMatch();
    Lookup(Registry, key)
  }

  /** Each key of the table looks up its own entry. */
  lemma GetComponentFinds(i: nat)
    requires i < |Registry|
    ensures GetComponent(Registry[i].0) == Some(Registry[i].1)
  {
    RegistryKeysDistinct();
    LookupDistinct(Registry, i);
  }

  /** A widget of the table is what its own key looks up. */
  lemma GetComponentOfValue(d: ComponentDef)
    requires d in Values(Registry)
    ensures GetComponent(d.key) == Some(d)
  {
    var i :| 0 <= i < |Registry| && Values(Registry)[i] == d;
    RegistryKeysMatch();
    GetComponentFinds(i);
  }

  /** What a lookup finds is a widget of the table. */
  lemma ValueOfLookup(key: string)
    ensures GetComponent(key).Some? ==> GetComponent(key).value in Values(Registry)
  {
    var r := GetComponent(key);
    if r.Some? {
      var i :| 0 <= i < |Registry| && Registry[i] == (key, r.value);
      assert Values(Registry)[i] == r.value;
    }
  }

  /** `getMuiCategoryMeta`. */
  function GetCategoryMeta(c: Category): (r: Option<CategoryMeta>) {
    FindMeta(Categories, c)
  }

  /** The six metadata records carry six different ids. */
  lemma CategoryIdsDistinct()
    ensures |Categories| == 6
    ensures forall i, j :: 0 <= i < j < |Categories| ==> Categories[i].id != Categories[j].id
  {
  }

  /** Every category has its record, and `getMuiCategoryMeta` returns it. */
  lemma GetCategoryMetaFinds(c: Category)
    ensures GetCategoryMeta(c).Some?
    ensures GetCategoryMeta(c).value in Categories && GetCategoryMeta(c).value.id == c
  {
    match c
    case Layout => assert Categories[0].id == c;
    case Inputs => assert Categories[1].id == c;
    case DataDisplay => assert Categories[2].id == c;
    case Navigation => assert Categories[3].id == c;
    case Feedback => assert Categories[4].id == c;
    case Surfaces => assert Categories[5].id == c;
  }
}
