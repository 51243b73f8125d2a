/** The capability registry the planner is given on a turn that is not a
    command: which plugins are imported into the kernel, in import order. */
module Plugins {

  datatype Plugin =
    | SQLPlugin
    | UploadPlugin
    | HRHandbookPlugin
    | DALLEPlugin
    | BingPlugin
    | HumanInterfacePlugin

  /** The name each plugin is registered under. */
  function Name(p: Plugin): string
  {
    match p
    case SQLPlugin => "SQLPlugin"
    case UploadPlugin => "UploadPlugin"
    case HRHandbookPlugin => "HRHandbookPlugin"
    case DALLEPlugin => "DALLEPlugin"
    case BingPlugin => "BingPlugin"
    case HumanInterfacePlugin => "HumanInterfacePlugin"
  }

  /** Which optional backing services were injected into the bot (non-null). */
  datatype Services = Services(
    sqlConnectionFactory: bool,
    documentAnalysisClient: bool,
    searchClient: bool,
    bingClient: bool)

  /** Position of each plugin in the fixed import sequence. */
  function Rank(p: Plugin): nat
  {
    match p
    case SQLPlugin => 0
    case UploadPlugin => 1
    case HRHandbookPlugin => 2
    case DALLEPlugin => 3
    case BingPlugin => 4
    case HumanInterfacePlugin => 5
  }

  /** Strictly increasing rank: the plugins appear in import order, each at most
      once. */
  ghost predicate InImportOrder(plugins: seq<Plugin>)
  {
    forall i, j :: 0 <= i < j < |plugins| ==> Rank(plugins[i]) < Rank(plugins[j])
  }

  /** The order of the imports on lines 190-195. */
  const ImportSequence := [SQLPlugin, UploadPlugin, HRHandbookPlugin, DALLEPlugin, BingPlugin, HumanInterfacePlugin]

  /** The guard of each import: the image plugin is unconditional, the
      human-interface plugin needs the stepwise planner off, the rest need
      their service. */
  predicate Imported(services: Services, useStepwisePlanner: bool, p: Plugin)
  {
    match p
    case SQLPlugin => services.sqlConnectionFactory
    case UploadPlugin => services.documentAnalysisClient
    case HRHandbookPlugin => services.searchClient
    case DALLEPlugin => true
    case BingPlugin => services.bingClient
    case HumanInterfacePlugin => !useStepwisePlanner
  }

  /** Runs the guarded imports of `candidates` in order. */
  function ImportAll(services: Services, useStepwisePlanner: bool, candidates: seq<Plugin>): (plugins: seq<Plugin>)
    requires InImportOrder(candidates)
    ensures forall p :: p in plugins <==> p in candidates && Imported(services, useStepwisePlanner, p)
    ensures InImportOrder(plugins)
  {
    if |candidates| == 0 then []
    else
      var rest := ImportAll(services, useStepwisePlanner, candidates[1..]);
      assert forall p :: p in rest ==> Rank(candidates[0]) < Rank(p);
      if Imported(services, useStepwisePlanner, candidates[0]) then [candidates[0]] + rest else rest
  }

  /** Lines 190-195 of the bot: the image plugin always, each service-backed
      plugin exactly when its service is configured, and the human-interface
      plugin exactly when the stepwise planner is off, in import order. */
  function SelectPlugins(services: Services, useStepwisePlanner: bool): (plugins: seq<Plugin>)
    ensures DALLEPlugin in plugins
    ensures SQLPlugin in plugins <==> services.sqlConnectionFactory
    ensures UploadPlugin in plugins <==> services.documentAnalysisClient
    ensures HRHandbookPlugin in plugins <==> services.searchClient
    ensures BingPlugin in plugins <==> services.bingClient
    ensures HumanInterfacePlugin in plugins <==> !useStepwisePlanner
    ensures InImportOrder(plugins)
  {
    ImportOrderIsRankOrder();
    ImportAll(services, useStepwisePlanner, ImportSequence)
  }

  /** The import sequence lists every plugin once, by rank. */
  lemma ImportOrderIsRankOrder()
    ensures InImportOrder(ImportSequence)
    ensures forall p :: p in ImportSequence
  {
    assert forall i :: 0 <= i < |ImportSequence| ==> Rank(ImportSequence[i]) == i;
    forall p
      ensures p in ImportSequence
    {
      assert ImportSequence[Rank(p)] == p;
    }
  }

  /** Registered names are unique on every turn: distinct plugins have
      distinct names, and a selection never holds a plugin twice. */
  lemma NamesDistinct(services: Services, useStepwisePlanner: bool)
    ensures var plugins := SelectPlugins(services, useStepwisePlanner);
      forall i, j :: 0 <= i < j < |plugins| ==> Name(plugins[i]) != Name(plugins[j])
  {
    var plugins := SelectPlugins(services, useStepwisePlanner);
    forall i, j | 0 <= i < j < |plugins|
      ensures Name(plugins[i]) != Name(plugins[j])
    {
      NameInjective(plugins[i], plugins[j]);
    }
  }

  lemma NameInjective(p: Plugin, q: Plugin)
    requires p != q
    ensures Name(p) != Name(q)
  {
  }

  /** With no optional service and the stepwise planner on, the registry is
      the image plugin alone: the planner always has a valid, if minimal,
      registry. */
  lemma MinimalRegistry()
    ensures SelectPlugins(Services(false, false, false, false), true) == [DALLEPlugin]
  {
  }
}
