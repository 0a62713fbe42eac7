/**
  The feature-flag registry of src/Config/Feature.ts: four declared features, of which three are
  listed by `values` and so appear in the default settings flags.
*/
module Features {
  import opened Wrappers

  /**
    A feature's identifying and behavioural fields. Its description and display name are
    presentation text only; they are looked up by internal name (`Description`, `DisplayName`)
    so that comparing features never compares those long texts.
  */
  datatype Feature = Feature(
    internalName: string,
    index: int,
    enabledByDefault: bool,
    stable: bool)
  {
    /** `toJSON`: a feature serialises as its internal name. */
    function ToJson(): string {
      internalName
    }

    /** The `description` text each declared feature is constructed with. */
    function Description(): string {
      match internalName
      case "TASK_STATUS_MENU" =>
        "Enables a right click menu for each task to allow you to select the task Status from the available next transition states."
      case "APPEND_GLOBAL_FILTER" =>
        "Enabling this places the global filter at the end of the task description. Some plugins, such as Day Planner, \n"
        + "might require this, or you might prefer how it looks. If you change this when tasks are modified using the \n"
        + "Task edit box they will have the tag moved to the beginning or end of the description."
      case "ENABLE_SQL_QUERY" =>
        "Enable the ability to use SQL based queries to find tasks. This new syntax can be used by annotating the code block \n"
        + " with \"task-sql\" instead of \"task\""
      case "ENABLE_TEMPLATE_RENDERING" =>
        "\n This is an enhanced form of rendering the query results that\n allows the user full control over the format of the rendered task\n"
        + " that a query returns. It uses handlebars based templates with\n helpers that ensure the results work with Obsidian removing the need\n"
        + " for user to know the internals of the Obsidian HTML structure.\n        "
      case _ => ""
    }

    /** The `displayName` each declared feature is constructed with. */
    function DisplayName(): string {
      match internalName
      case "TASK_STATUS_MENU" => "Task Status Menu"
      case "APPEND_GLOBAL_FILTER" => "Creates / Supports tasks with the global filter at end"
      case "ENABLE_SQL_QUERY" => "Enabled SQL based queries"
      case "ENABLE_TEMPLATE_RENDERING" => "Enable templated rendering"
      case _ => ""
    }
  }

  const TaskStatusMenu := Feature("TASK_STATUS_MENU", 0, false, false)

  const AppendGlobalFilter := Feature("APPEND_GLOBAL_FILTER", 0, true, true)

  const EnableSqlQuery := Feature("ENABLE_SQL_QUERY", 0, true, true)

  const EnableTemplateRendering := Feature("ENABLE_TEMPLATE_RENDERING", 0, false, false)

  /** Every feature declared as a static member. */
  const Declared: seq<Feature> := [TaskStatusMenu, AppendGlobalFilter, EnableSqlQuery, EnableTemplateRendering]

  /** `Feature.values`: the features users can switch, in declaration order. */
  function Values(): (r: seq<Feature>)
    ensures forall f :: f in r ==> f in Declared
    ensures TaskStatusMenu !in r
    ensures forall f :: f in Declared && f != TaskStatusMenu ==> f in r
  {
    [AppendGlobalFilter, EnableSqlQuery, EnableTemplateRendering]
  }

  /** No feature after position `i` has the name of the feature at `i`: its assignment is the last one for that name. */
  predicate LastWithName(fs: seq<Feature>, i: nat) {
    forall j :: i < j < |fs| ==> fs[j].internalName != fs[i].internalName
  }

  /** Builds the flag object the way `settingsFlags` does: one assignment per listed feature. */
  function FlagsOf(fs: seq<Feature>): map<string, bool> {
    if fs == [] then map[]
    else FlagsOf(fs[..|fs| - 1])[fs[|fs| - 1].internalName := fs[|fs| - 1].enabledByDefault]
  }

  /** The flag object's keys are exactly the internal names of the listed features. */
  lemma {:induction false} FlagsOfKeys(fs: seq<Feature>)
    ensures forall name :: name in FlagsOf(fs) <==> exists f :: f in fs && f.internalName == name
  {
    if fs != [] {
      var front, last := fs[..|fs| - 1], fs[|fs| - 1];
      FlagsOfKeys(front);
      assert fs == front + [last];
      forall name | name in FlagsOf(fs) ensures exists f :: f in fs && f.internalName == name {
        if name != last.internalName {
          assert name in FlagsOf(front);
          var f :| f in front && f.internalName == name;
          assert f in fs;
        }
      }
    }
  }

  /** The last assignment to a name wins: a feature no later one shares its name with keeps its default. */
  lemma {:induction false} FlagsOfLast(fs: seq<Feature>, i: nat)
    requires i < |fs| && LastWithName(fs, i)
    ensures fs[i].internalName in FlagsOf(fs)
    ensures FlagsOf(fs)[fs[i].internalName] == fs[i].enabledByDefault
  {
    var n := |fs| - 1;
    if i < n {
      var front := fs[..n];
      assert front[i] == fs[i];
      assert LastWithName(front, i) by {
        forall j | i < j < |front| ensures front[j].internalName != front[i].internalName {
          assert front[j] == fs[j];
        }
      }
      FlagsOfLast(front, i);
      assert fs[n].internalName != fs[i].internalName;
    }
  }

  /** `Feature.settingsFlags`: exactly the names of `values`, each mapped to its default. */
  function SettingsFlags(): (m: map<string, bool>)
    ensures forall f :: f in Values() ==> f.internalName in m && m[f.internalName] == f.enabledByDefault
    ensures forall name :: name in m ==> exists f :: f in Values() && f.internalName == name
    ensures TaskStatusMenu.internalName !in m
  {
    var vs := Values();
    assert vs[0].internalName == "APPEND_GLOBAL_FILTER";
    assert vs[1].internalName == "ENABLE_SQL_QUERY";
    assert vs[2].internalName == "ENABLE_TEMPLATE_RENDERING";
    FlagsOfKeys(vs);
    FlagsOfLast(vs, 0);
    FlagsOfLast(vs, 1);
    FlagsOfLast(vs, 2);
    FlagsOf(vs)
  }

  /**
    What a property lookup `Feature[name]` can find on the class object besides the four
    features: its other static members, the own properties every class has, and the members
    inherited from `Function.prototype` and `Object.prototype`. Each of them is truthy.
  */
  const OtherClassMembers: set<string> := {
    "values", "settingsFlags", "fromString", "prototype", "name", "length",
    "apply", "bind", "call", "toString", "constructor",
    "hasOwnProperty", "isPrototypeOf", "propertyIsEnumerable", "toLocaleString", "valueOf",
    "__proto__", "__defineGetter__", "__defineSetter__", "__lookupGetter__", "__lookupSetter__"}

  /** What `fromString` as written returns: a feature, or some other member of the class object. */
  datatype ClassMember = FeatureMember(feature: Feature) | OtherMember(name: string)

  function DeclaredNamed(name: string): (r: Option<Feature>)
    ensures r.Some? ==> r.value in Declared && r.value.internalName == name
    ensures r.None? ==> forall f :: f in Declared ==> f.internalName != name
  {
    if name == TaskStatusMenu.internalName then Some(TaskStatusMenu)
    else if name == AppendGlobalFilter.internalName then Some(AppendGlobalFilter)
    else if name == EnableSqlQuery.internalName then Some(EnableSqlQuery)
    else if name == EnableTemplateRendering.internalName then Some(EnableTemplateRendering)
    else None
  }

  /**
    `Feature.fromString` as written: it returns whatever truthy property the class object has
    under that name, and throws `RangeError` only when the lookup finds nothing.
  */
  function FromStringAsWritten(name: string): (r: Result<ClassMember>)
    ensures r.Success? && r.value.FeatureMember? ==> r.value.feature in Declared && r.value.feature.internalName == name
    ensures r.Failure? <==> DeclaredNamed(name).None? && name !in OtherClassMembers
  {
    match DeclaredNamed(name)
    case Some(f) => Success(FeatureMember(f))
    case None =>
      if name in OtherClassMembers then Success(OtherMember(name))
      else Failure("Illegal argument passed to fromString(): " + name + " does not correspond to any available Feature Feature")
  }

  /** The lookup accepts a name that is not a feature: `fromString("values")` returns the `values` array. */
  lemma FromStringAcceptsNonFeature()
    ensures FromStringAsWritten("values") == Success(OtherMember("values"))
    ensures FromStringAsWritten("values").Success?
    ensures forall f :: f in Declared ==> f.internalName != "values"
  {
  }

  /**
    `Feature.fromString` as documented: the declared feature with that internal name, or a
    `RangeError` for every other string.
  */
  function FromString(name: string): (r: Result<Feature>)
    ensures r.Success? <==> exists f :: f in Declared && f.internalName == name
    ensures r.Success? ==> r.value in Declared && r.value.internalName == name
  {
    match DeclaredNamed(name)
    case Some(f) => Success(f)
    case None => Failure("Illegal argument passed to fromString(): " + name + " does not correspond to any available Feature Feature")
  }

  /** `fromString` inverts `toJSON` on every declared feature. */
  lemma FromStringToJson(f: Feature)
    requires f in Declared
    ensures FromString(f.ToJson()) == Success(f)
  {
  }
}
