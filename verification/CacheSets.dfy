/** The two kinds of cache sets, each abstracted to the FIFO queue of its tags, oldest first. */
module CacheSets {
  import opened CacheModel

  class DirectMapped {
    var tag: nat

    ghost function Queue(): seq<nat>
      reads this
    {
      [tag]
    }

    constructor (associativity: nat)
      requires associativity == 1
      ensures Queue() == Zeros(1)
    {
      tag := 0;
    }

    method Find(t: nat) returns (found: bool)
      ensures found <==> t in Queue()
    {
      found := tag == t;
    }

    method Replace(t: nat)
      modifies this
      ensures Queue() == old(Queue())[1..] + [t]
    {
      tag := t;
    }

    method Flush()
      modifies this
      ensures Queue() == Zeros(1)
    {
      tag := 0;
    }
  }

  class RoundRobin {
    const tags: array<nat>
    var tagsLastIndex: nat
    var nextReplaceIndex: nat
    /** The tags of the ways in use, oldest first. */
    ghost var queue: seq<nat>

    ghost predicate Valid()
      reads this, tags
    {
      && nextReplaceIndex <= tagsLastIndex < tags.Length
      && |queue| == tagsLastIndex + 1
      && forall i :: 0 <= i <= tagsLastIndex ==> queue[i] == tags[Way(i, tagsLastIndex, nextReplaceIndex)]
    }

    function GetAssociativity(): nat
      reads this
    {
      tagsLastIndex + 1
    }

    constructor (maxAssociativity: nat, associativity: nat)
      requires 0 < associativity <= maxAssociativity
      ensures Valid() && fresh(tags) && tags.Length == maxAssociativity && GetAssociativity() == associativity
      ensures queue == Zeros(associativity)
      ensures forall i :: 0 <= i < maxAssociativity ==> tags[i] == 0
    {
      tags := new nat[maxAssociativity](_ => 0);
      tagsLastIndex := associativity - 1;
      nextReplaceIndex := associativity - 1;
      queue := Zeros(associativity);
    }

    /** Narrows or widens the set; the tags keep their values. */
    method SetAssociativity(associativity: nat)
      requires 0 < associativity <= tags.Length
      modifies this
      ensures Valid() && GetAssociativity() == associativity
      ensures forall i :: 0 <= i < associativity ==> queue[i] == tags[associativity - 1 - i]
    {
      tagsLastIndex := associativity - 1;
      nextReplaceIndex := tagsLastIndex;
      queue := seq(associativity, i requires 0 <= i < associativity reads tags => tags[associativity - 1 - i]);
    }

    method Find(tag: nat) returns (result: bool)
      requires Valid()
      ensures result <==> tag in queue
    {
      var index: int := tagsLastIndex;
      while index >= 0
        invariant -1 <= index <= tagsLastIndex
        invariant forall i :: index < i <= tagsLastIndex ==> tags[i] != tag
      {
        if tags[index] == tag {
          WayInverts(index, tagsLastIndex, nextReplaceIndex);
          assert queue[Way(index, tagsLastIndex, nextReplaceIndex)] == tag;
          return true;
        }
        index := index - 1;
      }
      return false;
    }

    /** The oldest tag leaves and the new one becomes the youngest. */
    method Replace(tag: nat)
      requires Valid()
      modifies this`nextReplaceIndex, this`queue, tags
      ensures Valid() && queue == old(queue)[1..] + [tag]
    {
      var index := nextReplaceIndex;
      tags[index] := tag;
      nextReplaceIndex := if index == 0 then tagsLastIndex else index - 1;
      queue := queue[1..] + [tag];
    }

    method Flush()
      requires Valid()
      modifies this`nextReplaceIndex, this`queue, tags
      ensures Valid() && queue == Zeros(GetAssociativity())
    {
      var index: int := tagsLastIndex;
      while index >= 0
        invariant -1 <= index <= tagsLastIndex < tags.Length
        invariant forall i :: index < i <= tagsLastIndex ==> tags[i] == 0
      {
        tags[index] := 0;
        index := index - 1;
      }
      nextReplaceIndex := tagsLastIndex;
      queue := Zeros(tagsLastIndex + 1);
    }
  }

  /** The way that holds the i-th oldest tag: from the next victim down to 0, then from the top down to it. */
  function Way(i: nat, last: nat, next: nat): (w: nat)
    requires i <= last && next <= last
    ensures w <= last
  {
    if i <= next then next - i else last + 1 + next - i
  }

  lemma WayInverts(i: nat, last: nat, next: nat)
    requires i <= last && next <= last
    ensures Way(Way(i, last, next), last, next) == i
  {
  }

  datatype SetOp = FindOp(tag: nat) | ReplaceOp(tag: nat) | FlushOp

  /** A direct-mapped set and a round-robin set of associativity 1 answer every run of operations alike. */
  method RunBoth(direct: DirectMapped, ring: RoundRobin, ops: seq<SetOp>) returns (answers: seq<bool>, ringAnswers: seq<bool>)
    requires ring.Valid() && ring.GetAssociativity() == 1 && direct.Queue() == ring.queue
    modifies direct, ring, ring.tags
    ensures ring.Valid() && ring.GetAssociativity() == 1 && direct.Queue() == ring.queue
    ensures answers == ringAnswers
  {
    answers, ringAnswers := [], [];
    for i := 0 to |ops|
      invariant ring.Valid() && ring.GetAssociativity() == 1 && direct.Queue() == ring.queue
      invariant answers == ringAnswers
    {
      match ops[i]
      case FindOp(tag) =>
        var a := direct.Find(tag);
        var b := ring.Find(tag);
        answers, ringAnswers := answers + [a], ringAnswers + [b];
      case ReplaceOp(tag) =>
        direct.Replace(tag);
        ring.Replace(tag);
      case FlushOp =>
        direct.Flush();
        ring.Flush();
    }
  }
}
