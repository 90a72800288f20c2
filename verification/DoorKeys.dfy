/** The door's key domain: `d<epoch>:<connId>` (src/socket_bootstrap.js). */
module DoorKeys {
  import opened Collections

  datatype DoorKey = DoorKey(epoch: string, connId: string)

  function Print(epoch: string, connId: string): string {
    "d" + epoch + ":" + connId
  }

  /** `s.indexOf(c)`, with |s| for absent. */
  function IndexOf(s: string, c: char): (i: nat)
    ensures i <= |s| && (i < |s| ==> s[i] == c)
    ensures forall j :: 0 <= j < i ==> s[j] != c
  {
    if s == "" || s[0] == c then 0
    else
      var i := IndexOf(s[1..], c);
      assert forall j :: 1 <= j < i + 1 ==> s[j] == s[1..][j - 1];
      i + 1
  }

  /** `parseDoorKey`: null for anything that is not a door key. */
  function Parse(key: string): Option<DoorKey> {
    if key == "" || key[0] != 'd' then None
    else
      var i := IndexOf(key, ':');
      if i == |key| || i <= 1 || i == |key| - 1 then None
      else Some(DoorKey(key[1..i], key[i + 1..]))
  }

  predicate IsOwn(key: string, epoch: string) {
    Parse(key).Some? && Parse(key).value.epoch == epoch
  }

  /** For a proper epoch the keys of this epoch are exactly `d<epoch>:` with something behind it. */
  lemma IsOwnIff(key: string, epoch: string)
    requires epoch != "" && ':' !in epoch
    ensures IsOwn(key, epoch) <==> exists connId :: connId != "" && key == "d" + epoch + ":" + connId
  {
    if IsOwn(key, epoch) {
      PrintUndoesParse(key);
      assert Parse(key).value.connId != "";
    }
    if connId :| connId != "" && key == "d" + epoch + ":" + connId {
      ParseUndoesPrint(epoch, connId);
    }
  }

  /** Printing undoes parsing, always. */
  lemma PrintUndoesParse(key: string)
    requires Parse(key).Some?
    ensures Print(Parse(key).value.epoch, Parse(key).value.connId) == key
  {
    var i := IndexOf(key, ':');
    assert key == key[..1] + key[1..i] + [key[i]] + key[i + 1..];
    assert key[..1] == "d" && [key[i]] == ":";
  }

  /** Parsing undoes printing exactly when both parts are there and the epoch has no colon. */
  lemma ParseUndoesPrint(epoch: string, connId: string)
    ensures Parse(Print(epoch, connId)) == Some(DoorKey(epoch, connId))
       <==> epoch != "" && connId != "" && ':' !in epoch
  {
    var key := Print(epoch, connId);
    assert key[0] == 'd' && key[1 + |epoch|] == ':';
    assert forall k :: 0 <= k < |epoch| ==> key[k + 1] == epoch[k];
    assert key[1..1 + |epoch|] == epoch && key[2 + |epoch|..] == connId;
    var i := IndexOf(key, ':');
    if ':' in epoch {
      var k :| 0 <= k < |epoch| && epoch[k] == ':';
      assert key[k + 1] == ':';
      assert i <= k + 1;
    } else {
      forall k | 0 <= k < 1 + |epoch|
        ensures key[k] != ':'
      {
        if k > 0 { assert key[k] == epoch[k - 1]; }
      }
      assert i == 1 + |epoch|;
    }
  }
}
