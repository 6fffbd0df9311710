/**
 * The shape shared by the batch endpoints: one result per requested id,
 * a success and a failure counter, and the summary message.
 */
module Batch {
  import Text

  /** One entry of `results`: the id, "success" or "failed", and the message. */
  datatype Item = Item(id: nat, ok: bool, message: string)

  /** The number of successful entries. */
  function CountOk(rs: seq<Item>): (n: nat)
    ensures n <= |rs|
    ensures n == |rs| <==> forall i :: 0 <= i < |rs| ==> rs[i].ok
    ensures n == 0 <==> forall i :: 0 <= i < |rs| ==> !rs[i].ok
  {
    if rs == [] then 0
    else
      var front := rs[..|rs| - 1];
      assert forall i :: 0 <= i < |front| ==> front[i] == rs[i];
      CountOk(front) + (if rs[|rs| - 1].ok then 1 else 0)
  }

  /** Recording one more entry adds one to exactly one of the two counters. */
  lemma CountOkAppend(rs: seq<Item>, r: Item)
    ensures CountOk(rs + [r]) == CountOk(rs) + (if r.ok then 1 else 0)
  {
    assert (rs + [r])[..|rs|] == rs;
  }

  /** What an entry adds to the success counter: one for a success, nothing for a failure. */
  function Tally(ok: bool): nat
  {
    if ok then 1 else 0
  }

  /** The message of a finished batch. */
  function Summary(success: nat, failed: nat): string
  {
    "批量操作完成，成功: " + Text.NatToString(success) + ", 失败: " + Text.NatToString(failed)
  }
}
