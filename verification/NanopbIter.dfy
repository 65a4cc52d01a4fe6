/** The field iterator: it walks a descriptor and wraps around at its end. */
module NanopbIter {
  import opened Bytes
  import opened NanopbMessage
  import opened NanopbDecode

  /** How far field j is ahead of field i, going around. */
  function Ahead(i: nat, j: nat, n: nat): nat
    requires i < n && j < n
  {
    if j >= i then j - i else n - i + j
  }

  lemma NextAhead(start: nat, i: nat, next: nat, n: nat)
    requires start < n && i < n && next == if i + 1 < n then i + 1 else 0
    ensures next != start ==> Ahead(start, next, n) == Ahead(start, i, n) + 1
    ensures next == start ==> Ahead(start, i, n) == n - 1
    ensures forall j | 0 <= j < n && j != i :: Ahead(start, j, n) != Ahead(start, i, n)
  {
  }

  class FieldIter {
    const fields: seq<Field>
    // Index of the current field; 0, the end marker, for an empty descriptor.
    var pos: nat
    var requiredFieldIndex: nat

    ghost predicate Valid()
      reads this
    {
      pos <= |fields| && (pos == |fields| ==> pos == 0) && requiredFieldIndex == RequiredBefore(fields, pos)
    }

    constructor (fields: seq<Field>)
      ensures Valid() && this.fields == fields && pos == 0
    {
      this.fields, pos, requiredFieldIndex := fields, 0, 0;
    }

    method Begin() returns (more: bool)
      modifies this
      ensures Valid() && pos == 0 && more == (|fields| > 0)
    {
      pos, requiredFieldIndex := 0, 0;
      more := |fields| > 0;
    }

    /** Moves on to the next field, or back to the first. */
    method Next() returns (more: bool)
      requires Valid()
      modifies this
      ensures Valid() && more == (old(pos) + 1 < |fields|)
      ensures pos == if more then old(pos) + 1 else 0
    {
      if pos == |fields| {
        return false;
      }
      var prev := fields[pos];
      pos := pos + 1;
      if pos == |fields| {
        var _ := Begin();
        return false;
      }
      if prev.htype.OneOf? && fields[pos].htype == prev.htype {
        return true;
      }
      if prev.htype.Required? {
        requiredFieldIndex := requiredFieldIndex + 1;
      }
      return true;
    }

    /** Moves to the next field with this tag, the current one included, going around
        at most once; stays where it was if there is none. */
    method Seek(tag: nat) returns (found: bool)
      requires Valid()
      modifies this
      ensures Valid()
      ensures |fields| == 0 ==> found == (tag == 0)
      ensures |fields| > 0 ==> found == Find(fields, tag).Some?
      ensures !found ==> pos == old(pos)
      ensures found && |fields| > 0 ==> fields[pos].tag == tag
      ensures found ==> forall j | 0 <= j < |fields| && fields[j].tag == tag ::
                Ahead(old(pos), pos, |fields|) <= Ahead(old(pos), j, |fields|)
    {
      if |fields| == 0 {
        return tag == 0;
      }
      var start := pos;
      var steps := 0;
      while true
        invariant Valid() && steps < |fields| && pos < |fields| && Ahead(start, pos, |fields|) == steps
        invariant forall j | 0 <= j < |fields| && Ahead(start, j, |fields|) < steps :: fields[j].tag != tag
        decreases |fields| - steps
      {
        if fields[pos].tag == tag {
          return true;
        }
        ghost var at := pos;
        var _ := Next();
        NextAhead(start, at, pos, |fields|);
        if pos == start {
          break;
        }
        steps := steps + 1;
      }
      assert forall j | 0 <= j < |fields| :: Ahead(start, j, |fields|) < |fields|;
      return false;
    }
  }

  /** With distinct tags the search finds the one field, wherever it starts. */
  lemma SeekIsFind(fields: seq<Field>, tag: nat, pos: nat)
    requires forall i, j | 0 <= i < j < |fields| :: fields[i].tag != fields[j].tag
    requires pos < |fields| && fields[pos].tag == tag
    ensures Find(fields, tag) == Some(pos)
  {
    var i := Find(fields, tag);
    assert fields[pos] in fields;
  }
}
