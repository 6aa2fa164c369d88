/** The view switcher of src/components/code-forge.tsx: which of the five
    capabilities is shown and the seed handed to it, the tab bar, and the
    mapping from the active capability to the component rendered. The seed
    reads of the four seeded views (the `useEffect` at line 45 of each) are
    modelled here too. */
module CodeForge {
  import opened Wrappers
  import opened Types
  import opened ChatInput

  /** `activeView` and `initialData`; `None` is `null`. */
  datatype ViewState = ViewState(active: Capability, seed: Option<Seed>)

  /** The first render: the chat view, no seed. */
  const Initial := ViewState(Solve, None)

  /** The first render shows the chat, the only view given the switch
      callback, with no seed pending. */
  lemma InitialShowsChat()
    ensures Render(Initial) == ChatWithSwitch
    ensures ConsumeSeed(Initial) == (Initial, None)
  {
  }

  /** The capabilities in tab-bar order. */
  const Tabs: seq<Capability> := [Solve, Study, Explain, Summarize, GetIdea]

  /** Every capability has a tab, and each has exactly one. */
  lemma TabsCoverCapabilities()
    ensures forall v: Capability :: v in Tabs
    ensures forall i, j | 0 <= i < j < |Tabs| :: Tabs[i] != Tabs[j]
  {
    forall v: Capability ensures v in Tabs {
      match v
      case Solve => assert Tabs[0] == v;
      case Study => assert Tabs[1] == v;
      case Explain => assert Tabs[2] == v;
      case Summarize => assert Tabs[3] == v;
      case GetIdea => assert Tabs[4] == v;
    }
  }

  /** `switchView(view, data)`, the callback the chat view calls: view and
      seed change together, and the new view is handed exactly that seed. */
  function SwitchTo(st: ViewState, view: Capability, seed: Option<Seed>): (r: ViewState)
    ensures r.active == view && r.seed == seed
    ensures Render(r).SeededView? ==> Render(r).seed == seed
  {
    ViewState(view, seed)
  }

  /** A click on a tab: that view, and the seed cleared, so a view opened
      from the tab bar never finds a seed to take. */
  function ClickTab(st: ViewState, view: Capability): (r: ViewState)
    ensures r.active == view && r.seed.None?
    ensures ConsumeSeed(r) == (r, None)
  {
    ViewState(view, None)
  }

  /** The components the switcher can render, other than the chat. */
  datatype SeededComponent = HomeworkHelper | ExplainPanel | SummarizePanel | GetIdeaPanel

  /** What `renderActiveComponent` returns: the chat, given the switch
      callback, or another view, given the seed and (implicitly) its
      clearer. */
  datatype Rendered =
    | ChatWithSwitch
    | SeededView(component: SeededComponent, seed: Option<Seed>)

  /** The capability a seeded component belongs to. */
  function CapabilityOf(c: SeededComponent): Capability {
    match c
    case HomeworkHelper => Study
    case ExplainPanel => Explain
    case SummarizePanel => Summarize
    case GetIdeaPanel => GetIdea
  }

  /** `renderActiveComponent`: total over the capabilities; only the chat
      gets the switch callback, and every other view gets the current seed
      and is the one that belongs to the active capability. */
  function Render(st: ViewState): (r: Rendered)
    ensures r.ChatWithSwitch? <==> st.active == Solve
    ensures r.SeededView? ==> r.seed == st.seed && CapabilityOf(r.component) == st.active
  {
    match st.active
    case Solve => ChatWithSwitch
    case Study => SeededView(HomeworkHelper, st.seed)
    case Explain => SeededView(ExplainPanel, st.seed)
    case Summarize => SeededView(SummarizePanel, st.seed)
    case GetIdea => SeededView(GetIdeaPanel, st.seed)
  }

  /** Every tab renders a different component. */
  lemma RenderIsInjective(a: ViewState, b: ViewState)
    requires a.seed == b.seed && a.active != b.active
    ensures Render(a) != Render(b)
  {
  }

  /** The seed property each view reads. */
  function KeyRead(c: SeededComponent): SeedKey {
    match c
    case HomeworkHelper => Question
    case ExplainPanel => Topic
    case SummarizePanel => TextKey
    case GetIdeaPanel => Topic
  }

  /** `if (initialData?.key)`: the view takes the seed's text only when the
      seed has the property it reads and the text is non-empty. */
  function ReadSeed(c: SeededComponent, seed: Option<Seed>): (r: Option<string>)
    ensures r.Some? <==> seed.Some? && seed.value.key == KeyRead(c) && seed.value.value != ""
    ensures r.Some? ==> r.value == seed.value.value
  {
    if seed.Some? && seed.value.key == KeyRead(c) && seed.value.value != "" then Some(seed.value.value)
    else None
  }

  /** The seeded view's effect: a seed it reads is taken once and then
      cleared through `setInitialData(null)`; a seed it does not read stays. */
  function ConsumeSeed(st: ViewState): (r: (ViewState, Option<string>))
    ensures r.0.active == st.active
    ensures r.1.Some? ==> r.0.seed.None? && st.seed.Some? && r.1.value == st.seed.value.value
    ensures r.1.None? ==> r.0 == st
    ensures Render(st).ChatWithSwitch? ==> r.1.None?
    ensures Render(st).SeededView? ==> r.1 == ReadSeed(Render(st).component, st.seed)
  {
    match Render(st)
    case ChatWithSwitch => (st, None)
    case SeededView(c, seed) =>
      match ReadSeed(c, seed)
      case None => (st, None)
      case Some(text) => (st.(seed := None), Some(text))
  }

  /** Each view-switching command fills exactly the property its target view
      reads. */
  lemma CommandKeysMatchViews(c: Command)
    requires c != ImagineCommand
    ensures var (view, key) := CommandTarget(c);
      Render(ViewState(view, None)).SeededView?
      && KeyRead(Render(ViewState(view, None)).component) == key
  {
  }

  /** A view command typed in the chat reaches its view: after the switch
      the rendered view takes the argument text (when there is any) and
      clears the seed, so it is used once. */
  lemma CommandSeedReachesView(st: ViewState, input: string)
    requires Route(input).ToView?
    ensures var r := Route(input);
      var after := SwitchTo(st, r.view, Some(r.seed));
      && Render(after).SeededView?
      && var taken := ConsumeSeed(after);
      && (r.seed.value != "" ==> taken.1 == Some(r.seed.value) && taken.0 == ViewState(r.view, None))
      && (r.seed.value == "" ==> taken.1.None? && taken.0 == after)
  {
    var c := LookupCommand(SplitCommand(input).0).value;
    CommandKeysMatchViews(c);
  }
}
