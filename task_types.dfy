/**
 * The records of the per-workspace task file, the built-in templates and default
 * configuration, and the template manager.
 */
module TaskTypes {
  import opened Wrappers
  import opened Sequences

  /** `id` of a task that has not been submitted to the remote service yet. */
  const UNSUBMITTED_ID: int := -1

  datatype GroupKind = Build | Test | NoGroup
  datatype TaskGroup = TaskGroup(kind: GroupKind, isDefault: Option<bool>)

  datatype RevealKind = Always | Silent | Never
  datatype PanelKind = Shared | Dedicated | NewPanel
  /** `revealKind` is the JSON field of the same meaning without the `Kind` suffix. */
  datatype TaskPresentation = TaskPresentation(
    echo: bool, revealKind: RevealKind, focus: bool, panel: PanelKind,
    showReuseMessage: Option<bool>, clear: Option<bool>)

  datatype ShellOptions = ShellOptions(executable: Option<string>, args: Option<seq<string>>)
  datatype TaskOptions = TaskOptions(cwd: Option<string>, env: Option<map<string, string>>, shell: Option<ShellOptions>)

  /**
   * One task record. `taskLabel` and `taskType` are the JSON fields `label` and `type`;
   * problem matchers are kept as plain strings. `resource` is the list of attached URIs that
   * the file may carry.
   */
  datatype TaskDefinition = TaskDefinition(
    id: int,
    taskLabel: string,
    taskType: string,
    command: string,
    args: seq<string>,
    group: Option<TaskGroup>,
    presentation: Option<TaskPresentation>,
    problemMatcher: Option<seq<string>>,
    description: Option<string>,
    dependsOn: Option<seq<string>>,
    options: Option<TaskOptions>,
    resource: Option<seq<string>>)

  datatype TaskTemplate = TaskTemplate(name: string, description: string, template: TaskDefinition)

  datatype TaskConfig = TaskConfig(version: string, tasks: seq<TaskDefinition>)

  predicate IsPending(t: TaskDefinition) {
    t.id == UNSUBMITTED_ID
  }

  /** `task.resource || []`: the attached URIs, none when the field is absent. */
  function ResourcesOf(task: TaskDefinition): seq<string> {
    task.resource.GetOr([])
  }

  const DEFAULT_PRESENTATION: TaskPresentation :=
    TaskPresentation(true, Always, false, Shared, None, None)

  /** The shape every built-in template shares: an unsubmitted shell task with an empty problem matcher list. */
  function ShellTemplate(taskLabel: string, command: string, args: seq<string>, group: TaskGroup): TaskDefinition {
    TaskDefinition(UNSUBMITTED_ID, taskLabel, "shell", command, args, Some(group), Some(DEFAULT_PRESENTATION),
                   Some([]), None, None, None, None)
  }

  const DEFAULT_TASK_TEMPLATES: seq<TaskTemplate> := [
    TaskTemplate("npm-build", "NPM构建任务",
      ShellTemplate("构建项目", "npm", ["run", "build"], TaskGroup(Build, Some(true)))),
    TaskTemplate("npm-test", "NPM测试任务",
      ShellTemplate("运行测试", "npm", ["test"], TaskGroup(Test, None))),
    TaskTemplate("npm-install", "NPM安装依赖",
      ShellTemplate("安装依赖", "npm", ["install"], TaskGroup(Build, None))),
    TaskTemplate("yarn-build", "Yarn构建任务",
      ShellTemplate("构建项目", "yarn", ["build"], TaskGroup(Build, Some(true)))),
    TaskTemplate("yarn-test", "Yarn测试任务",
      ShellTemplate("运行测试", "yarn", ["test"], TaskGroup(Test, None))),
    TaskTemplate("python-run", "Python运行任务",
      ShellTemplate("运行Python脚本", "python", ["main.py"], TaskGroup(Build, None))),
    TaskTemplate("docker-build", "Docker构建任务",
      ShellTemplate("构建Docker镜像", "docker", ["build", "-t", "myapp", "."], TaskGroup(Build, None)))
  ]

  /** The file written by "generate task config": the npm-build and npm-test tasks. */
  const DEFAULT_TASK_CONFIG: TaskConfig :=
    TaskConfig("2.0.0", [DEFAULT_TASK_TEMPLATES[0].template, DEFAULT_TASK_TEMPLATES[1].template])

  /** Every built-in template is unsubmitted and no two share a name. */
  lemma DefaultTemplatesWellFormed()
    ensures |DEFAULT_TASK_TEMPLATES| == 7
    ensures forall i :: 0 <= i < |DEFAULT_TASK_TEMPLATES| ==> IsPending(DEFAULT_TASK_TEMPLATES[i].template)
    ensures forall i, j :: 0 <= i < j < |DEFAULT_TASK_TEMPLATES| ==>
              DEFAULT_TASK_TEMPLATES[i].name != DEFAULT_TASK_TEMPLATES[j].name
  {
  }

  /** The default configuration has version 2.0.0 and holds templates 0 and 1, in that order, both unsubmitted. */
  lemma DefaultConfigShape()
    ensures DEFAULT_TASK_CONFIG.version == "2.0.0"
    ensures DEFAULT_TASK_CONFIG.tasks == [DEFAULT_TASK_TEMPLATES[0].template, DEFAULT_TASK_TEMPLATES[1].template]
    ensures DEFAULT_TASK_TEMPLATES[0].name == "npm-build" && DEFAULT_TASK_TEMPLATES[1].name == "npm-test"
    ensures forall t :: t in DEFAULT_TASK_CONFIG.tasks ==> IsPending(t)
  {
  }

  /**
   * Template names are distinct but task labels are not: npm-build and yarn-build both
   * produce the label 构建项目, so tasks made from them collide in every label-keyed edit.
   */
  lemma DefaultTemplateLabelsCollide()
    ensures DEFAULT_TASK_TEMPLATES[0].name != DEFAULT_TASK_TEMPLATES[3].name
    ensures DEFAULT_TASK_TEMPLATES[0].template.taskLabel == DEFAULT_TASK_TEMPLATES[3].template.taskLabel
  {
  }

  function HasName(name: string): TaskTemplate -> bool {
    (t: TaskTemplate) => t.name == name
  }

  /** `templates.find(t => t.name === name)`. */
  function TemplateByName(templates: seq<TaskTemplate>, name: string): (r: Option<TaskTemplate>)
    ensures r.None? <==> forall j :: 0 <= j < |templates| ==> templates[j].name != name
    ensures r.Some? ==> r.value.name == name
    ensures r.Some? ==> exists i :: 0 <= i < |templates| && templates[i] == r.value &&
                          forall j :: 0 <= j < i ==> templates[j].name != name
  {
    Find(templates, HasName(name))
  }

  /**
   * A shallow copy of the named template's task, with `args` replaced when custom
   * arguments are given (an empty list counts as given), or `None` for an unknown name.
   */
  function InstantiateTemplate(templates: seq<TaskTemplate>, name: string, customArgs: Option<seq<string>>)
    : (r: Option<TaskDefinition>)
    ensures r.None? <==> forall j :: 0 <= j < |templates| ==> templates[j].name != name
    ensures r.Some? ==>
              var t := TemplateByName(templates, name).value.template;
              && r.value.(args := t.args) == t
              && (customArgs.None? ==> r.value == t)
              && (customArgs.Some? ==> r.value.args == customArgs.value)
  {
    match TemplateByName(templates, name)
    case None => None
    case Some(template) =>
      var task := template.template;
      Some(if customArgs.Some? then task.(args := customArgs.value) else task)
  }

  /** The template manager: a mutable list of templates, initially the built-in ones. */
  class TemplateManager {
    var templates: seq<TaskTemplate>

    constructor ()
      ensures templates == DEFAULT_TASK_TEMPLATES
    {
      templates := DEFAULT_TASK_TEMPLATES;
    }

    /** The manager's current list, unchanged. */
    method GetTemplates() returns (r: seq<TaskTemplate>)
      ensures r == templates
    {
      r := templates;
    }

    method GetTemplateByName(name: string) returns (r: Option<TaskTemplate>)
      ensures r.None? <==> forall j :: 0 <= j < |templates| ==> templates[j].name != name
      ensures r.Some? ==> r.value == templates[FirstIndex(templates, HasName(name))]
    {
      r := TemplateByName(templates, name);
    }

    method CreateTaskFromTemplate(templateName: string, customArgs: Option<seq<string>>)
      returns (r: Option<TaskDefinition>)
      ensures r == InstantiateTemplate(templates, templateName, customArgs)
    {
      var template := GetTemplateByName(templateName);
      if template.None? {
        return None;
      }
      var task := template.value.template;
      if customArgs.Some? {
        task := task.(args := customArgs.value);
      }
      r := Some(task);
    }

    method AddTemplate(template: TaskTemplate)
      modifies this
      ensures templates == old(templates) + [template]
    {
      templates := templates + [template];
    }

    method RemoveTemplate(templateName: string) returns (removed: bool)
      modifies this
      ensures removed <==> exists i :: 0 <= i < |old(templates)| && old(templates)[i].name == templateName
      ensures removed ==> templates == RemoveAt(old(templates), FirstIndex(old(templates), HasName(templateName)))
      ensures !removed ==> templates == old(templates)
    {
      var index := FirstIndex(templates, HasName(templateName));
      if index != -1 {
        templates := RemoveAt(templates, index);
        return true;
      }
      return false;
    }
  }

  /** Adding a template and then removing it by name undoes the addition when the name was new. */
  lemma {:induction false} AddThenRemoveRestores(templates: seq<TaskTemplate>, template: TaskTemplate)
    requires forall j :: 0 <= j < |templates| ==> templates[j].name != template.name
    ensures FirstIndex(templates + [template], HasName(template.name)) == |templates|
    ensures RemoveAt(templates + [template], |templates|) == templates
  {
    var s := templates + [template];
    assert forall j :: 0 <= j < |templates| ==> s[j] == templates[j];
    assert HasName(template.name)(s[|templates|]);
  }
}
