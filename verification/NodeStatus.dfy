/** `selectOptimalNode` on the server: a running maximum over the status table. */
module NodeStatus {
  import opened Wrappers

  /**
    Visits the table in whatever order it yields. The request's size is not looked at, yet the
    answer has room for it exactly when some node has; no node with free memory yields "".
   */
  method SelectOptimalNode(available: map<string, u64>, size: u64) returns (selected: string)
    ensures size > 0 ==>
              ((selected in available && available[selected] >= size) <==>
               exists n :: n in available && available[n] >= size)
    ensures forall n :: n in available && available[n] > 0 ==> selected in available && available[selected] >= available[n]
    ensures (forall n :: n in available ==> available[n] == 0) ==> selected == ""
  {
    selected := "";
    var maxMemory: u64 := 0;
    var rest := available.Keys;
    while rest != {}
      invariant rest <= available.Keys
      invariant if maxMemory == 0 then selected == "" else selected in available && available[selected] == maxMemory
      invariant forall n :: n in available && n !in rest ==> available[n] <= maxMemory
      decreases rest
    {
      var nodeId :| nodeId in rest;
      rest := rest - {nodeId};
      if available[nodeId] > maxMemory {
        maxMemory := available[nodeId];
        selected := nodeId;
      }
    }
  }
}
