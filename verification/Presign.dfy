/** Sending attachments ahead of their upload: uploads finish in any order and may fail, and the
    message is patched, in batches and with retries, with the list of keys that are done. */
module Presign {
  const EDIT_BATCH_SIZE := 4
  const SYNC_ATTEMPTS := 3

  type Key = string

  /** What the sender of the message is told about one key. */
  datatype Outcome = Uploaded(key: Key) | Failed(key: Key)

  /** One upload as it completes. */
  datatype Completion = Completion(key: Key, ok: bool)

  function Succeeded(done: seq<Completion>): seq<Key> {
    if done == [] then []
    else
      var last := done[|done| - 1];
      Succeeded(done[..|done| - 1]) + if last.ok then [last.key] else []
  }

  function Reported(done: seq<Completion>): (r: seq<Outcome>)
    ensures |r| == |done|
    ensures forall i :: 0 <= i < |done| ==> r[i] == if done[i].ok then Uploaded(done[i].key) else Failed(done[i].key)
  {
    seq(|done|, i requires 0 <= i < |done| => if done[i].ok then Uploaded(done[i].key) else Failed(done[i].key))
  }

  lemma SucceededSnoc(done: seq<Completion>, i: nat)
    requires i < |done|
    ensures Succeeded(done[..i + 1]) == Succeeded(done[..i]) + if done[i].ok then [done[i].key] else []
  {
    assert done[..i + 1][..i] == done[..i];
  }

  /** Each list extends the one before. */
  predicate Growing(lists: seq<seq<Key>>) {
    forall i, j :: 0 <= i < j < |lists| ==> lists[i] <= lists[j]
  }

  /** Why accepted patches belong to the list of finished keys. */
  predicate Accepted(patches: seq<seq<Key>>, finished: seq<Key>, synced: nat) {
    && synced <= |finished|
    && Growing(patches)
    && (forall p :: p in patches ==> p <= finished)
    && (if patches == [] then synced == 0 else patches[|patches| - 1] == finished[..synced])
  }

  class Sender {
    var patches: seq<seq<Key>>     // accepted by the server, oldest first
    var attempts: nat              // all patches sent
    var outcomes: seq<Outcome>
    ghost var givenUp: nat         // synchronisations whose every attempt was lost

    constructor ()
      ensures patches == [] && attempts == 0 && outcomes == [] && givenUp == 0
    {
      patches, attempts, outcomes := [], 0, [];
      givenUp := 0;
    }

    /** One patch over the network: accepted or lost. */
    method UpdatePresignFinish(finished: seq<Key>) returns (ok: bool)
      modifies this`patches, this`attempts
      ensures attempts == old(attempts) + 1
      ensures patches == if ok then old(patches) + [finished] else old(patches)
    {
      ok := *;
      attempts := attempts + 1;
      if ok {
        patches := patches + [finished];
      }
    }

    /** Up to three attempts; each sends the whole list, so one success is enough. */
    method SyncWithRetry(finished: seq<Key>) returns (ok: bool)
      modifies this`patches, this`attempts, this`givenUp
      ensures patches == if ok then old(patches) + [finished] else old(patches)
      ensures givenUp == old(givenUp) + if ok then 0 else 1
      ensures old(attempts) < attempts <= old(attempts) + SYNC_ATTEMPTS
      ensures !ok ==> attempts == old(attempts) + SYNC_ATTEMPTS
    {
      for attempt := 0 to SYNC_ATTEMPTS
        invariant patches == old(patches) && attempts == old(attempts) + attempt && givenUp == old(givenUp)
      {
        ok := UpdatePresignFinish(finished);
        if ok {
          return;
        }
      }
      givenUp := givenUp + 1;
      return false;
    }

    /** Synchronise everything finished; what counts as synced moves only on success. */
    method SyncAll(finished: seq<Key>, synced: nat) returns (now: nat)
      requires Accepted(patches, finished, synced)
      modifies this`patches, this`attempts, this`givenUp
      ensures Accepted(patches, finished, now)
      ensures attempts > old(attempts)
      ensures givenUp == old(givenUp) ==> now == |finished| && |patches| == |old(patches)| + 1
      ensures givenUp != old(givenUp) ==>
                && now == synced && patches == old(patches)
                && givenUp > old(givenUp) && attempts >= old(attempts) + SYNC_ATTEMPTS
    {
      hide Accepted;
      now := synced;
      AcceptedMore(patches, finished, synced);
      var accepted := SyncWithRetry(finished);
      if accepted {
        now := |finished|;
      }
    }

    /** Uploads complete in the order `done`. The last accepted patch lists exactly the first
        `synced` finished keys, every patch extends the one before, every key is reported once, and
        true means that every finished key is in the last accepted patch. While no synchronisation
        gives up, there is one patch for the keys already finished and one for every four more. */
    method UploadAndPatch(alreadyFinished: seq<Key>, done: seq<Completion>)
      returns (ok: bool, finished: seq<Key>, synced: nat)
      requires patches == [] && outcomes == []
      modifies this
      ensures finished == alreadyFinished + Succeeded(done)
      ensures outcomes == Reported(done)
      ensures Accepted(patches, finished, synced)
      ensures ok <==> finished == if patches == [] then [] else patches[|patches| - 1]
      ensures ok <==> synced == |finished|
      ensures synced < |finished| ==> givenUp > old(givenUp) && attempts >= old(attempts) + SYNC_ATTEMPTS
      ensures givenUp == old(givenUp) ==>
                |patches| == (if alreadyFinished == [] then 0 else 1)
                             + (|Succeeded(done)| + EDIT_BATCH_SIZE - 1) / EDIT_BATCH_SIZE
    {
      hide *;
      finished := alreadyFinished;
      synced := 0;
      NothingAccepted(finished);
      NothingSucceeded(done);
      if finished != [] {
        synced := SyncAll(finished, synced);
      }
      ghost var already := |alreadyFinished|;
      PunctualStart(already);
      for i := 0 to |done|
        invariant finished == alreadyFinished + Succeeded(done[..i])
        invariant outcomes == Reported(done)[..i]
        invariant Accepted(patches, finished, synced)
        invariant attempts >= old(attempts) && givenUp >= old(givenUp)
        invariant givenUp == old(givenUp) ==> Punctual(already, |Succeeded(done[..i])|, synced, |patches|)
      {
        SucceededSnoc(done, i);
        SyncedInside(patches, finished, synced);
        PunctualStep(already, |Succeeded(done[..i])|, synced, |patches|);
        var completion := done[i];
        if completion.ok {
          outcomes := outcomes + [Uploaded(completion.key)];
          FinishedGrows(patches, finished, synced, completion.key);
          finished := finished + [completion.key];
        } else {
          outcomes := outcomes + [Failed(completion.key)];
        }
        if |finished| - synced >= EDIT_BATCH_SIZE {
          synced := SyncAll(finished, synced);
        }
      }
      assert done[..|done|] == done;
      SyncedInside(patches, finished, synced);
      PunctualEnd(already, |Succeeded(done)|, synced, |patches|);
      if |finished| > synced {
        synced := SyncAll(finished, synced);
      }
      ok := |finished| == synced;
      LastAccepted(patches, finished, synced);
    }
  }

  /** Nothing has been given up: every full batch is synced, in a patch of its own. */
  predicate Punctual(already: nat, uploaded: nat, synced: nat, patches: nat) {
    && synced == already + uploaded / EDIT_BATCH_SIZE * EDIT_BATCH_SIZE
    && patches == (if already == 0 then 0 else 1) + uploaded / EDIT_BATCH_SIZE
  }

  lemma PunctualStart(already: nat)
    ensures Punctual(already, 0, already, if already == 0 then 0 else 1)
  {
  }

  lemma PunctualStep(already: nat, uploaded: nat, synced: nat, patches: nat)
    ensures Punctual(already, uploaded, synced, patches) ==>
              && already + uploaded - synced < EDIT_BATCH_SIZE
              && if already + uploaded + 1 - synced >= EDIT_BATCH_SIZE
                 then Punctual(already, uploaded + 1, already + uploaded + 1, patches + 1)
                 else Punctual(already, uploaded + 1, synced, patches)
  {
  }

  lemma PunctualEnd(already: nat, uploaded: nat, synced: nat, patches: nat)
    ensures Punctual(already, uploaded, synced, patches) ==>
              (if already + uploaded > synced then patches + 1 else patches)
              == (if already == 0 then 0 else 1) + (uploaded + EDIT_BATCH_SIZE - 1) / EDIT_BATCH_SIZE
  {
  }

  lemma SyncedInside(patches: seq<seq<Key>>, finished: seq<Key>, synced: nat)
    requires Accepted(patches, finished, synced)
    ensures synced <= |finished|
  {
  }

  lemma NothingAccepted(finished: seq<Key>)
    ensures Accepted([], finished, 0)
  {
  }

  lemma NothingSucceeded(done: seq<Completion>)
    ensures Succeeded(done[..0]) == []
  {
  }

  lemma AcceptedMore(patches: seq<seq<Key>>, finished: seq<Key>, synced: nat)
    requires Accepted(patches, finished, synced)
    ensures Accepted(patches + [finished], finished, |finished|)
  {
    var more := patches + [finished];
    forall i, j | 0 <= i < j < |more|
      ensures more[i] <= more[j]
    {
      if j == |patches| {
        assert more[i] == patches[i] && patches[i] in patches;
      } else {
        assert more[i] == patches[i] && more[j] == patches[j];
      }
    }
  }

  lemma FinishedGrows(patches: seq<seq<Key>>, finished: seq<Key>, synced: nat, key: Key)
    requires Accepted(patches, finished, synced)
    ensures Accepted(patches, finished + [key], synced)
  {
    assert synced <= |finished| ==> (finished + [key])[..synced] == finished[..synced];
  }

  lemma LastAccepted(patches: seq<seq<Key>>, finished: seq<Key>, synced: nat)
    requires Accepted(patches, finished, synced)
    ensures synced <= |finished|
    ensures synced == |finished| <==> finished == if patches == [] then [] else patches[|patches| - 1]
  {
    if patches != [] {
      var last := patches[|patches| - 1];
      assert synced == |finished| ==> finished[..synced] == finished;
      assert finished == last ==> |finished| == synced;
    }
  }

  /** With distinct keys every key gets exactly one outcome, and it is Uploaded exactly for uploads
      that succeeded. */
  lemma OneOutcomeEach(done: seq<Completion>, i: nat)
    requires i < |done| && forall j, k :: 0 <= j < k < |done| ==> done[j].key != done[k].key
    ensures forall k :: 0 <= k < |done| && Reported(done)[k].key == done[i].key ==> k == i
    ensures Reported(done)[i].Uploaded? <==> done[i].key in Succeeded(done)
  {
    SucceededMembers(done, done[i].key);
    if done[i].key in Succeeded(done) {
      var k :| 0 <= k < |done| && done[k].ok && done[k].key == done[i].key;
    }
  }

  lemma {:induction false} SucceededMembers(done: seq<Completion>, key: Key)
    ensures key in Succeeded(done) <==> exists k :: 0 <= k < |done| && done[k].ok && done[k].key == key
  {
    if done != [] {
      var n := |done| - 1;
      var before := done[..n];
      SucceededMembers(before, key);
      if exists k :: 0 <= k < |done| && done[k].ok && done[k].key == key {
        var k :| 0 <= k < |done| && done[k].ok && done[k].key == key;
        if k < n {
          assert before[k] == done[k];
        }
      }
      if exists k :: 0 <= k < n && before[k].ok && before[k].key == key {
        var k :| 0 <= k < n && before[k].ok && before[k].key == key;
        assert done[k] == before[k];
      }
    }
  }
}
