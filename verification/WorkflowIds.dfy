/** The IDs under which workflows are started. */
module WorkflowIds {
  function WorkflowIdFor(eventId: string): string {
    "render-device-config:" + eventId
  }

  function DeploymentWorkflowIdFor(eventId: string): string {
    "deploy-device-config:" + eventId
  }

  /** One event ID names two workflows, and two event IDs never share one. */
  lemma WorkflowIdsDiffer(a: string, b: string)
    ensures WorkflowIdFor(a) != DeploymentWorkflowIdFor(b)
    ensures WorkflowIdFor(a) == WorkflowIdFor(b) <==> a == b
    ensures DeploymentWorkflowIdFor(a) == DeploymentWorkflowIdFor(b) <==> a == b
  {
    assert WorkflowIdFor(a)[0] != DeploymentWorkflowIdFor(b)[0];
    assert WorkflowIdFor(a)[21..] == a && WorkflowIdFor(b)[21..] == b;
    assert DeploymentWorkflowIdFor(a)[21..] == a && DeploymentWorkflowIdFor(b)[21..] == b;
  }
}
