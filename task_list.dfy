/**
 * The label-keyed edits the commands make to the parsed task file: setting the remote id of
 * a submitted task, deleting a task, replacing its resource list and appending a task made
 * from a template, together with the unsubmitted filter.
 *
 * Every edit finds its task with `tasks.findIndex(t => t.label === label)`, so it acts on the
 * FIRST task carrying the label. The edits are stated as functions on the task sequence;
 * `ParsedConfig` holds the parsed file and makes them in place, and its flow methods follow
 * the commands with the user's dialog answers and the remote id passed in as parameters.
 */
module TaskList {
  import opened Wrappers
  import opened Sequences
  import opened TaskTypes

  /** The ids the simulated remote service hands out: `Math.floor(Math.random() * 10000) + 1`. */
  const REMOTE_ID_MIN: int := 1
  const REMOTE_ID_MAX: int := 10000

  function HasLabel(taskLabel: string): TaskDefinition -> bool {
    (t: TaskDefinition) => t.taskLabel == taskLabel
  }

  function LabelOf(t: TaskDefinition): string {
    t.taskLabel
  }

  /** `tasks.findIndex(t => t.label === taskLabel)`. */
  function LabelIndex(tasks: seq<TaskDefinition>, taskLabel: string): (k: int)
    ensures -1 <= k < |tasks|
    ensures k == -1 <==> forall j :: 0 <= j < |tasks| ==> tasks[j].taskLabel != taskLabel
    ensures k != -1 ==> tasks[k].taskLabel == taskLabel && forall j :: 0 <= j < k ==> tasks[j].taskLabel != taskLabel
  {
    var k := FirstIndex(tasks, HasLabel(taskLabel));
    assert k != -1 ==> HasLabel(taskLabel)(tasks[k]);
    k
  }

  /** `tasks[taskIndex].id = id` for the first task with the label; nothing when there is none. */
  function WithIdOfLabel(tasks: seq<TaskDefinition>, taskLabel: string, id: int): (r: seq<TaskDefinition>)
    ensures |r| == |tasks|
    ensures forall j :: 0 <= j < |r| ==> r[j].(id := tasks[j].id) == tasks[j]
    ensures forall j :: 0 <= j < |r| && j != LabelIndex(tasks, taskLabel) ==> r[j] == tasks[j]
    ensures LabelIndex(tasks, taskLabel) != -1 ==> r[LabelIndex(tasks, taskLabel)].id == id
  {
    var k := LabelIndex(tasks, taskLabel);
    if k == -1 then tasks else tasks[k := tasks[k].(id := id)]
  }

  /** `tasks[taskIndex].resource = resources` for the first task with the label; nothing when there is none. */
  function WithResourceOfLabel(tasks: seq<TaskDefinition>, taskLabel: string, resources: seq<string>)
    : (r: seq<TaskDefinition>)
    ensures |r| == |tasks|
    ensures forall j :: 0 <= j < |r| ==> r[j].(resource := tasks[j].resource) == tasks[j]
    ensures forall j :: 0 <= j < |r| && j != LabelIndex(tasks, taskLabel) ==> r[j] == tasks[j]
    ensures LabelIndex(tasks, taskLabel) != -1 ==> r[LabelIndex(tasks, taskLabel)].resource == Some(resources)
  {
    var k := LabelIndex(tasks, taskLabel);
    if k == -1 then tasks else tasks[k := tasks[k].(resource := Some(resources))]
  }

  /** `tasks.splice(taskIndex, 1)` for the first task with the label; nothing when there is none. */
  function WithoutLabel(tasks: seq<TaskDefinition>, taskLabel: string): (r: seq<TaskDefinition>)
    ensures LabelIndex(tasks, taskLabel) == -1 ==> r == tasks
    ensures LabelIndex(tasks, taskLabel) != -1 ==>
              var k := LabelIndex(tasks, taskLabel);
              && |r| == |tasks| - 1
              && (forall j :: 0 <= j < k ==> r[j] == tasks[j])
              && (forall j :: k <= j < |r| ==> r[j] == tasks[j + 1])
              && multiset(r) + multiset{tasks[k]} == multiset(tasks)
  {
    var k := LabelIndex(tasks, taskLabel);
    if k == -1 then tasks else RemoveAt(tasks, k)
  }

  /** `tasks.filter(t => t.id === -1)`. */
  function Unsubmitted(tasks: seq<TaskDefinition>): seq<TaskDefinition> {
    Filter(tasks, IsPending)
  }

  /** The unsubmitted filter yields exactly the tasks whose id is -1. */
  lemma UnsubmittedSpec(tasks: seq<TaskDefinition>)
    ensures forall j :: 0 <= j < |Unsubmitted(tasks)| ==> Unsubmitted(tasks)[j] in tasks && IsPending(Unsubmitted(tasks)[j])
    ensures forall j :: 0 <= j < |tasks| && IsPending(tasks[j]) ==> tasks[j] in Unsubmitted(tasks)
    ensures Unsubmitted(tasks) == [] <==> forall j :: 0 <= j < |tasks| ==> !IsPending(tasks[j])
  {
    FilterSpec(tasks, IsPending);
    if Unsubmitted(tasks) != [] {
      assert IsPending(Unsubmitted(tasks)[0]) && Unsubmitted(tasks)[0] in tasks;
    }
  }

  /** The labels offered by the quick pick of "submit task to remote", in file order. */
  function PendingLabels(tasks: seq<TaskDefinition>): (r: seq<string>)
    ensures |r| == |Unsubmitted(tasks)|
    ensures forall j :: 0 <= j < |r| ==> r[j] == Unsubmitted(tasks)[j].taskLabel
  {
    Map(Unsubmitted(tasks), LabelOf)
  }

  /** The unsubmitted filter keeps file order: it distributes over concatenation. */
  lemma UnsubmittedConcat(a: seq<TaskDefinition>, b: seq<TaskDefinition>)
    ensures Unsubmitted(a + b) == Unsubmitted(a) + Unsubmitted(b)
  {
    FilterConcat(a, b, IsPending);
  }

  /** A task's id set to a real id, shown around its position in the list. */
  lemma SubmitAround(tasks: seq<TaskDefinition>, taskLabel: string, id: int)
    requires LabelIndex(tasks, taskLabel) != -1 && id != UNSUBMITTED_ID
    ensures var k := LabelIndex(tasks, taskLabel);
            var r := WithIdOfLabel(tasks, taskLabel, id);
            && r[..k] == tasks[..k] && r[k + 1..] == tasks[k + 1..] && !IsPending(r[k])
  {
    var k := LabelIndex(tasks, taskLabel);
    var r := tasks[k := tasks[k].(id := id)];
    assert WithIdOfLabel(tasks, taskLabel, id) == r;
    assert r[..k] == tasks[..k];
    assert r[k + 1..] == tasks[k + 1..];
  }

  /**
   * Submitting a pending task: when the first task with the label is pending and receives a
   * real id, exactly that task leaves the unsubmitted list and the rest keep their order.
   */
  lemma SubmitRemovesFromPending(tasks: seq<TaskDefinition>, taskLabel: string, id: int)
    requires LabelIndex(tasks, taskLabel) != -1 && id != UNSUBMITTED_ID
    requires IsPending(tasks[LabelIndex(tasks, taskLabel)])
    ensures var k := LabelIndex(tasks, taskLabel);
            && Unsubmitted(tasks) == Unsubmitted(tasks[..k]) + [tasks[k]] + Unsubmitted(tasks[k + 1..])
            && Unsubmitted(WithIdOfLabel(tasks, taskLabel, id)) == Unsubmitted(tasks[..k]) + Unsubmitted(tasks[k + 1..])
  {
    var k := LabelIndex(tasks, taskLabel);
    var r := WithIdOfLabel(tasks, taskLabel, id);
    SubmitAround(tasks, taskLabel, id);
    var before, after := Unsubmitted(tasks[..k]), Unsubmitted(tasks[k + 1..]);
    FilterAround(tasks, k, IsPending);
    assert Unsubmitted(tasks) == before + [tasks[k]] + after;
    FilterAround(r, k, IsPending);
    assert Unsubmitted(r) == before + [] + after;
  }

  /**
   * Submitting under a label whose first task already has an id leaves the unsubmitted list
   * as it was, even when a later task with the same label is still pending.
   */
  lemma SubmitOfSubmittedKeepsPending(tasks: seq<TaskDefinition>, taskLabel: string, id: int)
    requires LabelIndex(tasks, taskLabel) != -1 && id != UNSUBMITTED_ID
    requires !IsPending(tasks[LabelIndex(tasks, taskLabel)])
    ensures Unsubmitted(WithIdOfLabel(tasks, taskLabel, id)) == Unsubmitted(tasks)
  {
    var k := LabelIndex(tasks, taskLabel);
    var r := WithIdOfLabel(tasks, taskLabel, id);
    SubmitAround(tasks, taskLabel, id);
    FilterAround(tasks, k, IsPending);
    FilterAround(r, k, IsPending);
  }

  /** Setting an id or a resource list keeps every label, so a repeated edit hits the same task. */
  lemma EditsKeepLabels(tasks: seq<TaskDefinition>, taskLabel: string, id: int, resources: seq<string>)
    ensures Map(WithIdOfLabel(tasks, taskLabel, id), LabelOf) == Map(tasks, LabelOf)
    ensures Map(WithResourceOfLabel(tasks, taskLabel, resources), LabelOf) == Map(tasks, LabelOf)
    ensures WithIdOfLabel(WithIdOfLabel(tasks, taskLabel, id), taskLabel, id) == WithIdOfLabel(tasks, taskLabel, id)
  {
    var r := WithIdOfLabel(tasks, taskLabel, id);
    assert forall j :: 0 <= j < |r| ==> r[j].taskLabel == tasks[j].taskLabel by {
      forall j | 0 <= j < |r| ensures r[j].taskLabel == tasks[j].taskLabel {
        assert r[j].(id := tasks[j].id) == tasks[j];
      }
    }
    var q := WithResourceOfLabel(tasks, taskLabel, resources);
    assert forall j :: 0 <= j < |q| ==> q[j].taskLabel == tasks[j].taskLabel by {
      forall j | 0 <= j < |q| ensures q[j].taskLabel == tasks[j].taskLabel {
        assert q[j].(resource := tasks[j].resource) == tasks[j];
      }
    }
    assert LabelIndex(r, taskLabel) == LabelIndex(tasks, taskLabel) by {
      var k := LabelIndex(tasks, taskLabel);
      if k != -1 {
        assert r[k].taskLabel == taskLabel;
      } else {
        assert forall j :: 0 <= j < |r| ==> r[j].taskLabel != taskLabel;
      }
    }
  }

  /** Deleting all but one task with the label: the number of tasks carrying it drops by exactly one. */
  lemma DeleteRemovesOneWithLabel(tasks: seq<TaskDefinition>, taskLabel: string)
    requires LabelIndex(tasks, taskLabel) != -1
    ensures var k := LabelIndex(tasks, taskLabel);
            WithoutLabel(tasks, taskLabel) == tasks[..k] + tasks[k + 1..]
    ensures |Filter(WithoutLabel(tasks, taskLabel), HasLabel(taskLabel))| == |Filter(tasks, HasLabel(taskLabel))| - 1
  {
    var k := LabelIndex(tasks, taskLabel);
    var p := HasLabel(taskLabel);
    assert WithoutLabel(tasks, taskLabel) == tasks[..k] + tasks[k + 1..];
    FilterAround(tasks, k, p);
    FilterConcat(tasks[..k], tasks[k + 1..], p);
    FilterNone(tasks[..k], p);
    assert p(tasks[k]);
  }

  /**
   * `generateTaskConfig`: the configuration written to the task file, or `None` when a file
   * exists and overwriting it is not confirmed.
   */
  function GeneratedConfig(existing: Option<TaskConfig>, overwrite: bool): (r: Option<TaskConfig>)
    ensures r.None? <==> existing.Some? && !overwrite
    ensures r.Some? ==> r.value == DEFAULT_TASK_CONFIG
  {
    if existing.Some? && !overwrite then None else Some(DEFAULT_TASK_CONFIG)
  }

  /** A freshly generated file offers both of its tasks to "submit task to remote", in order. */
  lemma GeneratedTasksAllPending(existing: Option<TaskConfig>, overwrite: bool)
    requires GeneratedConfig(existing, overwrite).Some?
    ensures var tasks := GeneratedConfig(existing, overwrite).value.tasks;
            Unsubmitted(tasks) == tasks && PendingLabels(tasks) == ["构建项目", "运行测试"]
  {
    var tasks := DEFAULT_TASK_CONFIG.tasks;
    DefaultConfigShape();
    FilterSpec(tasks, IsPending);
  }

  /** What `submitSingleTask` and `submitTaskToRemote` report. */
  datatype SubmitOutcome = AlreadySubmitted | AllSubmitted | Cancelled | Submitted(remoteId: int, written: bool)

  /** What `createTaskFromTemplate` reports. */
  datatype CreateOutcome = CreateCancelled | TemplateMissing | Created(task: TaskDefinition)

  /** What `deleteTask` reports. */
  datatype DeleteOutcome = NotConfirmed | NotFound | Deleted

  /** JavaScript truthiness of a dialog answer that may be dismissed: neither missing nor `""`. */
  predicate Answered(answer: Option<string>) {
    answer.Some? && answer.value != ""
  }

  /** The task file after `JSON.parse`: its version and task list, edited in place. */
  class ParsedConfig {
    var version: string
    var tasks: seq<TaskDefinition>

    /** The configuration read from an existing file. */
    constructor FromConfig(config: TaskConfig)
      ensures version == config.version && tasks == config.tasks
    {
      version := config.version;
      tasks := config.tasks;
    }

    /** The configuration `createTaskFromTemplate` starts from when there is no file yet. */
    constructor Fresh()
      ensures version == "2.0.0" && tasks == []
    {
      version := "2.0.0";
      tasks := [];
    }

    /** What `JSON.stringify` writes back. */
    function ToConfig(): (c: TaskConfig)
      reads this
      ensures c.version == version && c.tasks == tasks
    {
      TaskConfig(version, tasks)
    }

    /** The id update of both submit commands; `found` is `taskIndex !== -1`. */
    method SetIdOfLabel(taskLabel: string, id: int) returns (found: bool)
      modifies this
      ensures found <==> LabelIndex(old(tasks), taskLabel) != -1
      ensures tasks == WithIdOfLabel(old(tasks), taskLabel, id)
      ensures version == old(version)
    {
      var taskIndex := LabelIndex(tasks, taskLabel);
      found := taskIndex != -1;
      if found {
        tasks := tasks[taskIndex := tasks[taskIndex].(id := id)];
      }
    }

    /** The resource update of `updateTaskResources`. */
    method SetResourceOfLabel(taskLabel: string, resources: seq<string>) returns (found: bool)
      modifies this
      ensures found <==> LabelIndex(old(tasks), taskLabel) != -1
      ensures tasks == WithResourceOfLabel(old(tasks), taskLabel, resources)
      ensures version == old(version)
    {
      var taskIndex := LabelIndex(tasks, taskLabel);
      found := taskIndex != -1;
      if found {
        tasks := tasks[taskIndex := tasks[taskIndex].(resource := Some(resources))];
      }
    }

    /** The `splice` of `deleteTask`. */
    method DeleteLabel(taskLabel: string) returns (found: bool)
      modifies this
      ensures found <==> LabelIndex(old(tasks), taskLabel) != -1
      ensures tasks == WithoutLabel(old(tasks), taskLabel)
      ensures version == old(version)
    {
      var taskIndex := LabelIndex(tasks, taskLabel);
      found := taskIndex != -1;
      if found {
        tasks := tasks[..taskIndex] + tasks[taskIndex + 1..];
      }
    }

    /** `tasksConfig.tasks.push(task)`. */
    method PushTask(task: TaskDefinition)
      modifies this
      ensures tasks == old(tasks) + [task]
      ensures version == old(version)
    {
      tasks := tasks + [task];
    }

    /**
     * `submitSingleTask`: refuses a task that already has a remote id, stops when the
     * description dialog is dismissed or left empty, and otherwise stores `remoteId` on the
     * first task with the task's label. The success message is shown even when no task in the
     * file carries the label (`written` is then false).
     */
    method SubmitSingleTask(task: TaskDefinition, description: Option<string>, remoteId: int)
      returns (outcome: SubmitOutcome)
      requires REMOTE_ID_MIN <= remoteId <= REMOTE_ID_MAX
      modifies this
      ensures outcome == AlreadySubmitted <==> !IsPending(task)
      ensures outcome == Cancelled <==> IsPending(task) && !Answered(description)
      ensures !outcome.Submitted? ==> tasks == old(tasks) && version == old(version)
      ensures outcome.Submitted? ==>
                && outcome == Submitted(remoteId, LabelIndex(old(tasks), task.taskLabel) != -1)
                && tasks == WithIdOfLabel(old(tasks), task.taskLabel, remoteId)
                && version == old(version)
    {
      if task.id != UNSUBMITTED_ID {
        return AlreadySubmitted;
      }
      if !Answered(description) {
        return Cancelled;
      }
      var written := SetIdOfLabel(task.taskLabel, remoteId);
      outcome := Submitted(remoteId, written);
    }

    /**
     * `submitTaskToRemote`: reports that everything is submitted when no task is pending,
     * stops when the pick or the description is dismissed or empty, and otherwise stores
     * `remoteId` on the first task with the picked label. The pick is one of the pending labels.
     */
    method SubmitTaskToRemote(picked: Option<string>, description: Option<string>, remoteId: int)
      returns (outcome: SubmitOutcome)
      requires REMOTE_ID_MIN <= remoteId <= REMOTE_ID_MAX
      requires picked.Some? ==> picked.value in PendingLabels(tasks)
      modifies this
      ensures outcome == AllSubmitted <==> Unsubmitted(old(tasks)) == []
      ensures outcome == Cancelled <==> Unsubmitted(old(tasks)) != [] && !(Answered(picked) && Answered(description))
      ensures !outcome.Submitted? ==> tasks == old(tasks) && version == old(version)
      ensures outcome.Submitted? ==>
                && outcome == Submitted(remoteId, true)
                && tasks == WithIdOfLabel(old(tasks), picked.value, remoteId)
                && version == old(version)
    {
      var unsubmittedTasks := Unsubmitted(tasks);
      if |unsubmittedTasks| == 0 {
        return AllSubmitted;
      }
      if !Answered(picked) {
        return Cancelled;
      }
      if !Answered(description) {
        return Cancelled;
      }
      PickedLabelIsInFile(tasks, picked.value);
      var written := SetIdOfLabel(picked.value, remoteId);
      outcome := Submitted(remoteId, written);
    }

    /**
     * `createTaskFromTemplate` after the configuration is read (or started fresh): looks the
     * picked template up, takes the label the user typed, and appends a copy of the template's
     * task carrying that label.
     */
    method CreateTaskFromTemplate(manager: TemplateManager, pickedName: Option<string>, enteredLabel: Option<string>)
      returns (outcome: CreateOutcome)
      modifies this
      ensures outcome.Created? <==>
                pickedName.Some? && TemplateByName(manager.templates, pickedName.value).Some? && Answered(enteredLabel)
      ensures outcome == TemplateMissing <==>
                pickedName.Some? && TemplateByName(manager.templates, pickedName.value).None?
      ensures !outcome.Created? ==> tasks == old(tasks) && version == old(version)
      ensures outcome.Created? ==>
                && outcome.task == TemplateByName(manager.templates, pickedName.value).value.template
                                     .(taskLabel := enteredLabel.value)
                && tasks == old(tasks) + [outcome.task]
                && version == old(version)
    {
      if pickedName.None? {
        return CreateCancelled;
      }
      var template := manager.GetTemplateByName(pickedName.value);
      if template.None? {
        return TemplateMissing;
      }
      if !Answered(enteredLabel) {
        return CreateCancelled;
      }
      var newTask := manager.CreateTaskFromTemplate(pickedName.value, None);
      if newTask.None? {
        return TemplateMissing;
      }
      var task := newTask.value.(taskLabel := enteredLabel.value);
      PushTask(task);
      outcome := Created(task);
    }

    /** `deleteTask`: after the confirmation, removes the first task with the task's label. */
    method DeleteTask(task: TaskDefinition, confirmed: bool) returns (outcome: DeleteOutcome)
      modifies this
      ensures outcome == NotConfirmed <==> !confirmed
      ensures outcome == Deleted <==> confirmed && LabelIndex(old(tasks), task.taskLabel) != -1
      ensures tasks == (if outcome == Deleted then WithoutLabel(old(tasks), task.taskLabel) else old(tasks))
      ensures version == old(version)
    {
      if !confirmed {
        return NotConfirmed;
      }
      var found := DeleteLabel(task.taskLabel);
      outcome := if found then Deleted else NotFound;
    }

    /** `updateTaskResources`: replaces the resource list of the first task with the task's label. */
    method UpdateTaskResources(task: TaskDefinition, newResources: seq<string>) returns (found: bool)
      modifies this
      ensures found <==> LabelIndex(old(tasks), task.taskLabel) != -1
      ensures tasks == WithResourceOfLabel(old(tasks), task.taskLabel, newResources)
      ensures version == old(version)
    {
      found := SetResourceOfLabel(task.taskLabel, newResources);
    }
  }

  /** A label offered by the pending pick belongs to some task of the file. */
  lemma PickedLabelIsInFile(tasks: seq<TaskDefinition>, taskLabel: string)
    requires taskLabel in PendingLabels(tasks)
    ensures LabelIndex(tasks, taskLabel) != -1
  {
    var pending := Unsubmitted(tasks);
    UnsubmittedSpec(tasks);
    var i :| 0 <= i < |PendingLabels(tasks)| && PendingLabels(tasks)[i] == taskLabel;
    assert pending[i] in tasks && pending[i].taskLabel == taskLabel;
  }
}
