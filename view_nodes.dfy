/**
 * The task tree: the node built for each resource URI and for each task, and the children
 * the tree asks for under the root, a task and a resource.
 */
module ViewNodes {
  import opened Wrappers
  import opened Strings
  import opened Sequences
  import opened Paths
  import opened TaskTypes
  import opened TaskList

  const OPEN_NETWORK_RESOURCE_COMMAND: string := "patch-test.openNetworkResource"
  const OPEN_COMMAND: string := "vscode.open"
  const PENDING_CONTEXT: string := "pendingTask"
  const SUBMITTED_CONTEXT: string := "submittedTask"

  datatype Icon = Globe | File | Clock | Check

  datatype CollapsibleState = NotCollapsible | Collapsed

  /** A command argument: the URI text itself, or the URI `vscode.Uri.parse` made of that text. */
  datatype CommandArg = UriString(text: string) | ParsedUri(source: string)

  datatype Command = Command(command: string, title: string, arguments: seq<CommandArg>)

  /** A resource node. `resourceUri` is set for local resources only. */
  datatype ResourceItem = ResourceItem(
    resourceUriString: string,
    itemLabel: string,
    collapsible: CollapsibleState,
    tooltip: string,
    description: string,
    icon: Icon,
    resourceUri: Option<string>,
    command: Command)

  /** A task node. */
  datatype TaskItem = TaskItem(
    task: TaskDefinition,
    itemLabel: string,
    collapsible: CollapsibleState,
    tooltip: string,
    icon: Icon,
    contextValue: string,
    description: string)

  datatype TreeNode = ResourceNode(resource: ResourceItem) | TaskNode(taskItem: TaskItem)

  /** `uri.startsWith('http://') || uri.startsWith('https://')`. */
  predicate IsNetworkResource(uri: string) {
    StartsWith(uri, "http://") || StartsWith(uri, "https://")
  }

  /** The `ResourceItem` constructor. */
  function MakeResourceItem(uri: string): (item: ResourceItem)
    ensures item.resourceUriString == uri && item.itemLabel == Basename(uri) && item.collapsible == NotCollapsible
    ensures item.tooltip == uri && item.description == uri
    ensures IsNetworkResource(uri) <==> item.command.command == OPEN_NETWORK_RESOURCE_COMMAND
    ensures IsNetworkResource(uri) ==>
              item.icon == Globe && item.command.arguments == [UriString(uri)] && item.resourceUri.None?
    ensures !IsNetworkResource(uri) ==>
              && item.icon == File && item.command.command == OPEN_COMMAND
              && item.resourceUri == Some(uri) && item.command.arguments == [ParsedUri(uri)]
  {
    var base := ResourceItem(uri, Basename(uri), NotCollapsible, uri, uri, File, None, Command("", "", []));
    if IsNetworkResource(uri) then
      base.(icon := Globe, command := Command(OPEN_NETWORK_RESOURCE_COMMAND, "打开网络资源", [UriString(uri)]))
    else
      base.(resourceUri := Some(uri), command := Command(OPEN_COMMAND, "打开资源", [ParsedUri(uri)]))
  }

  /** `${task.label} - ${task.command} ${task.args?.join(' ') || ''}`. */
  function TaskTooltip(task: TaskDefinition): string {
    task.taskLabel + " - " + task.command + " " + Join(task.args, ' ')
  }

  /** The `TaskItem` constructor. */
  function MakeTaskItem(task: TaskDefinition): (item: TaskItem)
    ensures item.task == task && item.itemLabel == task.taskLabel && item.description == ""
    ensures item.tooltip == TaskTooltip(task)
    ensures item.collapsible == Collapsed <==> task.resource.Some? && |task.resource.value| > 0
    ensures item.contextValue == PENDING_CONTEXT <==> IsPending(task)
    ensures item.contextValue == SUBMITTED_CONTEXT <==> !IsPending(task)
    ensures item.icon == (if IsPending(task) then Clock else Check)
  {
    var collapsible := if task.resource.Some? && |task.resource.value| > 0 then Collapsed else NotCollapsible;
    if task.id == UNSUBMITTED_ID then
      TaskItem(task, task.taskLabel, collapsible, TaskTooltip(task), Clock, PENDING_CONTEXT, "")
    else
      TaskItem(task, task.taskLabel, collapsible, TaskTooltip(task), Check, SUBMITTED_CONTEXT, "")
  }

  function ResourceNodeOf(uri: string): TreeNode {
    ResourceNode(MakeResourceItem(uri))
  }

  function TaskNodeOf(task: TaskDefinition): TreeNode {
    TaskNode(MakeTaskItem(task))
  }

  /**
   * `getChildren`: nothing under a resource, one resource node per attached URI under a task,
   * and under the root one task node per task of the file. `rootTasks` is what `getTasks`
   * read: `None` when there is no workspace, no file, no `tasks` field or a read error.
   */
  function Children(element: Option<TreeNode>, rootTasks: Option<seq<TaskDefinition>>): (children: seq<TreeNode>)
    ensures element.Some? && element.value.ResourceNode? ==> children == []
    ensures element.Some? && element.value.TaskNode? ==>
              var resources := ResourcesOf(element.value.taskItem.task);
              |children| == |resources| && forall j :: 0 <= j < |resources| ==> children[j] == ResourceNodeOf(resources[j])
    ensures element.None? ==>
              var tasks := rootTasks.GetOr([]);
              |children| == |tasks| && forall j :: 0 <= j < |tasks| ==> children[j] == TaskNodeOf(tasks[j])
  {
    match element
    case Some(ResourceNode(_)) => []
    case Some(TaskNode(item)) => Map(ResourcesOf(item.task), ResourceNodeOf)
    case None => Map(rootTasks.GetOr([]), TaskNodeOf)
  }

  /**
   * The node alone tells the kinds apart: two resource nodes carry the same command exactly
   * when both or neither are network resources, and two task nodes carry the same context
   * value exactly when both or neither are pending.
   */
  lemma SameCommandIffSameKind(u: string, v: string, t: TaskDefinition, w: TaskDefinition)
    ensures MakeResourceItem(u).command.command == MakeResourceItem(v).command.command
            <==> (IsNetworkResource(u) <==> IsNetworkResource(v))
    ensures MakeTaskItem(t).contextValue == MakeTaskItem(w).contextValue <==> (IsPending(t) <==> IsPending(w))
  {
    assert OPEN_NETWORK_RESOURCE_COMMAND[0] != OPEN_COMMAND[0];
    assert PENDING_CONTEXT[0] != SUBMITTED_CONTEXT[0];
  }

  /** A task node shows the expand arrow exactly when asking for its children gives some. */
  lemma ExpandableIffHasChildren(task: TaskDefinition, rootTasks: Option<seq<TaskDefinition>>)
    ensures MakeTaskItem(task).collapsible == Collapsed <==> |Children(Some(TaskNodeOf(task)), rootTasks)| > 0
  {
  }

  predicate IsPendingNode(node: TreeNode) {
    node.TaskNode? && node.taskItem.contextValue == PENDING_CONTEXT
  }

  /** Filtering after mapping is mapping after filtering with the composed test. */
  lemma {:induction false} FilterMapTasks(tasks: seq<TaskDefinition>)
    ensures Filter(Map(tasks, TaskNodeOf), IsPendingNode) == Map(Unsubmitted(tasks), TaskNodeOf)
    decreases |tasks|
  {
    if tasks != [] {
      FilterMapTasks(tasks[1..]);
      assert Map(tasks, TaskNodeOf)[1..] == Map(tasks[1..], TaskNodeOf);
      assert IsPendingNode(TaskNodeOf(tasks[0])) == IsPending(tasks[0]);
      if IsPending(tasks[0]) {
        assert Unsubmitted(tasks) == [tasks[0]] + Unsubmitted(tasks[1..]);
        assert Map([tasks[0]] + Unsubmitted(tasks[1..]), TaskNodeOf)[1..] == Map(Unsubmitted(tasks[1..]), TaskNodeOf);
      }
    }
  }

  /** The pending nodes under the root are the nodes of the unsubmitted tasks, in file order. */
  lemma PendingRootNodes(tasks: seq<TaskDefinition>)
    ensures Filter(Children(None, Some(tasks)), IsPendingNode) == Map(Unsubmitted(tasks), TaskNodeOf)
  {
    assert Children(None, Some(tasks)) == Map(tasks, TaskNodeOf);
    FilterMapTasks(tasks);
  }

  /** After a resource update the edited task's node is expandable exactly when the new list is non-empty. */
  lemma ExpandableAfterResourceUpdate(tasks: seq<TaskDefinition>, taskLabel: string, resources: seq<string>)
    requires LabelIndex(tasks, taskLabel) != -1
    ensures var k := LabelIndex(tasks, taskLabel);
            MakeTaskItem(WithResourceOfLabel(tasks, taskLabel, resources)[k]).collapsible == Collapsed <==> |resources| > 0
  {
  }

  /** After a submission with a real id the edited task's node shows as submitted. */
  lemma SubmittedAfterSubmission(tasks: seq<TaskDefinition>, taskLabel: string, remoteId: int)
    requires LabelIndex(tasks, taskLabel) != -1 && REMOTE_ID_MIN <= remoteId <= REMOTE_ID_MAX
    ensures var k := LabelIndex(tasks, taskLabel);
            MakeTaskItem(WithIdOfLabel(tasks, taskLabel, remoteId)[k]).contextValue == SUBMITTED_CONTEXT
  {
  }
}
