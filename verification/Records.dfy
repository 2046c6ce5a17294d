/** The stored records of the video upscaler module. A Go string is its sequence of bytes. */
module Records {

  newtype byte = x: int | 0 <= x < 256

  type Text = seq<byte>

  datatype Option<+T> = None | Some(value: T)

  datatype Frame = Frame(filename: Text, signature: Text, cid: Text, hash: Text, validCount: int, invalidCount: int)

  datatype Solution = Solution(proposedBy: Text, frames: seq<Frame>, publicKey: Text, dir: Text, accepted: bool)

  datatype Validation = Validation(validator: Text, frames: seq<Frame>, publicKey: Text, isReverse: bool)

  datatype Thread = Thread(threadId: Text, taskId: Text, startFrame: int, endFrame: int, scale: int, completed: bool,
                           workers: seq<Text>, solution: Option<Solution>, validations: seq<Validation>,
                           averageRenderSeconds: int)

  datatype Task = Task(taskId: Text, requester: Text, cid: Text, startFrame: int, endFrame: int, threadAmount: int,
                       scale: int, completed: bool, reward: nat, threads: seq<Thread>)

  datatype Reputation = Reputation(staked: nat, points: int, validations: int, solutions: int, winnings: nat,
                                   renderDurations: seq<int>)

  /** currentTaskId and currentThreadIndex are the worker's pointer into the task store; [] means idle. */
  datatype Worker = Worker(address: Text, reputation: Reputation, enabled: bool, currentTaskId: Text,
                           currentThreadIndex: int, publicIp: Text, ipfsId: Text)

  /** What the module takes from libraries that are not modelled: content ids and public-key cryptography.
      `verifies` takes the key, the frame hash, the validator's address and the signature. */
  datatype Oracle = Oracle(validCid: Text -> bool, keyDecodes: Text -> bool, signatureDecodes: Text -> bool,
                           verifies: (Text, Text, Text, Text) -> bool)

  predicate Distinct<T(==)>(s: seq<T>) {
    forall i, j :: 0 <= i < j < |s| ==> s[i] != s[j]
  }

  /** An order in which Go may visit the keys of a map. */
  predicate Ordering<T(==)>(order: seq<T>, keys: set<T>) {
    Distinct(order) && keys == set k | k in order
  }

  /** Every order visits as many keys as there are. */
  lemma {:induction false} OrderingSize<T>(order: seq<T>, keys: set<T>)
    requires Ordering(order, keys)
    ensures |order| == |keys|
  {
    if order == [] {
      assert keys == {};
    } else {
      var last := order[|order| - 1];
      var front := order[..|order| - 1];
      assert last !in front;
      assert keys - {last} == set k | k in front by {
        assert order == front + [last];
      }
      OrderingSize(front, keys - {last});
    }
  }

  lemma OrderingGrows<T>(order: seq<T>, keys: set<T>, k: T)
    requires Ordering(order, keys) && k !in keys
    ensures Ordering(order + [k], keys + {k})
  {
    assert forall x :: x in order + [k] <==> x in order || x == k;
  }
}
