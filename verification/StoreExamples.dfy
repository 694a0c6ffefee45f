/** What each selector does to a store of one packet. */
module StoreExamples {
  import opened Names
  import opened Options
  import opened StoreSpec
  import opened SelectSpec
  import opened StoreRuns

  const A := Component(8, [65])
  const B := Component(8, [66])
  const K := Component(8, [75])

  /** /A/B, signed with /K; its full name has three components. */
  function Stored(): Data {
    Data([A, B], seq(DIGEST_SIZE, _ => 0), Some(KeyName([K])), [1])
  }

  function Ask(name: Name, minSuffix: int, maxSuffix: int): Interest {
    Interest(name, minSuffix, maxSuffix, 0, None, (c: Component) => false)
  }

  /** The answer of the store that only got this packet. */
  method Answered(i: Interest) returns (r: Option<Data>)
    ensures IsAnswer(i, [Stored()], r)
  {
    var requests := [Insertion(Stored(), false, 0)];
    assert requests[..0] == [];
    assert Admissible(1, requests);
    assert Run(1, requests).ds == [Stored()];
    var size;
    r, size := Replay(1, requests, i);
  }

  /** One or two more components than /A are there, not three. */
  method MinimumAndMaximum() returns (atLeastOne: Option<Data>, atLeastThree: Option<Data>,
                                      atMostOne: Option<Data>, atMostTwo: Option<Data>)
    ensures atLeastOne == Some(Stored()) && atLeastThree == None
    ensures atMostOne == None && atMostTwo == Some(Stored())
  {
    Met();
    atLeastOne := Answered(Ask([A], 1, -1));
    atLeastThree := Answered(Ask([A], 3, -1));
    atMostOne := Answered(Ask([A], -1, 1));
    atMostTwo := Answered(Ask([A], -1, 2));
  }

  lemma Met()
    ensures Satisfies(Ask([A], 1, -1), Stored()) && !Satisfies(Ask([A], 3, -1), Stored())
    ensures !Satisfies(Ask([A], -1, 1), Stored()) && Satisfies(Ask([A], -1, 2), Stored())
  {
    assert FullName(Stored())[..1] == [A];
  }

  /** The Interest name is a prefix of the packet's. */
  method Prefixes() returns (below: Option<Data>, beside: Option<Data>, same: Option<Data>)
    ensures below == Some(Stored()) && beside == None && same == Some(Stored())
  {
    below := Answered(Ask([], -1, -1));
    assert !([B] <= FullName(Stored())) by { assert FullName(Stored())[0] == A; }
    beside := Answered(Ask([B], -1, -1));
    assert FullName(Stored())[..2] == [A, B];
    same := Answered(Ask([A, B], 0, 1));
  }

  /** The right key, another one. */
  method Keys() returns (right: Option<Data>, wrong: Option<Data>)
    ensures right == Some(Stored()) && wrong == None
  {
    assert FullName(Stored())[..1] == [A];
    right := Answered(Ask([A], -1, -1).(keyLocator := Some(KeyName([K]))));
    wrong := Answered(Ask([A], -1, -1).(keyLocator := Some(KeyName([A]))));
  }

  /** The child component of /A is B. */
  method Exclusions() returns (withoutB: Option<Data>, withoutK: Option<Data>)
    ensures withoutB == None && withoutK == Some(Stored())
  {
    assert FullName(Stored())[..1] == [A] && FullName(Stored())[1] == B;
    withoutB := Answered(Ask([A], -1, -1).(excludes := c => c == B));
    withoutK := Answered(Ask([A], -1, -1).(excludes := c => c == K));
  }
}
