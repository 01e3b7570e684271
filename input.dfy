/** The hexadecimal keypad, read through the host keyboard. Sixteen
    physical keys (the 4x4 block from 1 to V on a QWERTY keyboard) stand for
    the keys 0x0 to 0xF. The state of the physical keyboard at one moment is
    the set of physical keys held down; reading it is a parameter here, not
    a call into a keyboard library. */
module Input {
  import opened Common

  const KeyCount: nat := 16

  /** Physical key to keypad key, laid out as on the original keypad:
        1 2 3 C      1 2 3 4
        4 5 6 D  <-  Q W E R
        7 8 9 E      A S D F
        A 0 B F      Z X C V */
  const QwertyToChip8: map<char, int> := map[
    '1' := 0x1, '2' := 0x2, '3' := 0x3, '4' := 0xC,
    'q' := 0x4, 'w' := 0x5, 'e' := 0x6, 'r' := 0xD,
    'a' := 0x7, 's' := 0x8, 'd' := 0x9, 'f' := 0xE,
    'z' := 0xA, 'x' := 0x0, 'c' := 0xB, 'v' := 0xF]

  /** The keys of the inverse mapping in the order they are visited, which
      is the order the mapping above lists them. */
  const KeyOrder: seq<int> := [0x1, 0x2, 0x3, 0xC, 0x4, 0x5, 0x6, 0xD, 0x7, 0x8, 0x9, 0xE, 0xA, 0x0, 0xB, 0xF]

  /** No two physical keys stand for the same keypad key. */
  predicate Injective(m: map<char, int>)
  {
    forall p, q :: p in m && q in m && m[p] == m[q] ==> p == q
  }

  /** A one-to-one mapping turned around. */
  function Inverse(m: map<char, int>): (inv: map<int, char>)
    requires Injective(m)
    ensures forall k :: k in inv <==> k in m.Values
    ensures forall q :: q in m ==> m[q] in inv && inv[m[q]] == q
    ensures forall k :: k in inv ==> inv[k] in m && m[inv[k]] == k
  {
    map q | q in m :: m[q] := q
  }

  /** Keypad key to physical key: the mapping above turned around. */
  function Chip8ToQwerty(): (m: map<int, char>)
    ensures Injective(QwertyToChip8) && m == Inverse(QwertyToChip8)
  {
    LayoutInjective();
    Inverse(QwertyToChip8)
  }

  lemma LayoutInjective()
    ensures Injective(QwertyToChip8)
  {
  }

  /** Every physical key stands for a key in 0x0..0xF. */
  lemma LayoutInRange()
    ensures forall q :: q in QwertyToChip8 ==> 0 <= QwertyToChip8[q] < KeyCount
  {
  }

  /** Every key in 0x0..0xF has a physical key. */
  lemma LayoutCoversKeypad()
    ensures forall k :: 0 <= k < KeyCount ==> k in QwertyToChip8.Values
  {
    var m := QwertyToChip8;
    forall k | 0 <= k < KeyCount
      ensures k in m.Values
    {
      var q :=
        if k == 0x0 then 'x' else if k == 0x1 then '1' else if k == 0x2 then '2' else if k == 0x3 then '3'
        else if k == 0x4 then 'q' else if k == 0x5 then 'w' else if k == 0x6 then 'e' else if k == 0x7 then 'a'
        else if k == 0x8 then 's' else if k == 0x9 then 'd' else if k == 0xA then 'z' else if k == 0xB then 'c'
        else if k == 0xC then '4' else if k == 0xD then 'r' else if k == 0xE then 'f' else 'v';
      assert q in m && m[q] == k;
    }
  }

  /** The two mappings are inverse bijections between the sixteen physical
      keys and the keys 0x0 to 0xF. */
  lemma MappingIsBijection()
    ensures forall k :: k in Chip8ToQwerty() <==> 0 <= k < KeyCount
    ensures forall k :: k in Chip8ToQwerty() ==>
      Chip8ToQwerty()[k] in QwertyToChip8 && QwertyToChip8[Chip8ToQwerty()[k]] == k
    ensures forall q :: q in QwertyToChip8 ==> 0 <= QwertyToChip8[q] < KeyCount
    ensures forall q :: q in QwertyToChip8 ==>
      QwertyToChip8[q] in Chip8ToQwerty() && Chip8ToQwerty()[QwertyToChip8[q]] == q
  {
    LayoutInRange();
    LayoutCoversKeypad();
  }

  /** The visiting order lists each keypad key exactly once. */
  lemma KeyOrderIsPermutation()
    ensures |KeyOrder| == KeyCount
    ensures forall k :: k in KeyOrder <==> 0 <= k < KeyCount
    ensures forall a, b :: 0 <= a < b < |KeyOrder| ==> KeyOrder[a] != KeyOrder[b]
  {
  }

  /** `key_pressed`: whether the physical key standing for `key` is held. A
      key outside 0x0..0xF has no physical key and raises `KeyError`. */
  function KeyPressed(held: set<char>, key: int): (r: Result<bool>)
    ensures r.Ok? <==> 0 <= key < KeyCount
    ensures r.Err? ==> r.error == KeyError
    ensures r.Ok? ==> (r.value <==> exists q :: q in held && q in QwertyToChip8 && QwertyToChip8[q] == key)
  {
    MappingIsBijection();
    if key in Chip8ToQwerty() then Ok(Chip8ToQwerty()[key] in held) else Err(KeyError)
  }

  /** `key_pressed` as the source writes it: the inverse mapping is called
      like a function instead of indexed, which raises `TypeError` whatever
      the key and the keyboard. */
  function KeyPressedAsWritten(held: set<char>, key: int): Result<bool>
  {
    Err(TypeError)
  }

  /** `key_not_pressed`: the negation of `KeyPressed`, with its errors. */
  function KeyNotPressed(held: set<char>, key: int): (r: Result<bool>)
    ensures r.Ok? <==> KeyPressed(held, key).Ok?
    ensures r.Ok? ==> r.value == !KeyPressed(held, key).value
    ensures r.Err? ==> r.error == KeyError
  {
    match KeyPressed(held, key)
    case Ok(b) => Ok(!b)
    case Err(e) => Err(e)
  }

  /** As written, no key can ever be read, while the corrected `KeyPressed`
      reports a held key as held. */
  lemma KeyPressedAsWrittenAlwaysFails(held: set<char>, key: int)
    ensures KeyPressedAsWritten(held, key) == Err(TypeError)
    ensures KeyPressed({'x'}, 0x0) == Ok(true)
  {
    MappingIsBijection();
    assert QwertyToChip8['x'] == 0x0;
  }

  /** The keypad state as sixteen flags indexed by key. */
  function KeyStateView(held: set<char>): (v: seq<bool>)
    ensures |v| == KeyCount
    ensures forall k :: 0 <= k < KeyCount ==> (v[k] <==> KeyPressed(held, k) == Ok(true))
  {
    MappingIsBijection();
    seq(KeyCount, k => k in Chip8ToQwerty() && Chip8ToQwerty()[k] in held)
  }

  /** `_key_states`: visits every keypad key and raises its flag when the key
      is held. */
  method KeyStates(held: set<char>) returns (states: seq<bool>)
    ensures states == KeyStateView(held)
  {
    var inv := Chip8ToQwerty();
    assert forall k :: k in KeyOrder <==> 0 <= k < KeyCount by {
      KeyOrderIsPermutation();
    }
    assert forall k :: k in inv <==> 0 <= k < KeyCount by {
      MappingIsBijection();
    }
    states := FlagHeldKeys(KeyOrder, inv, held);
    assert forall k :: 0 <= k < KeyCount ==> states[k] == KeyStateView(held)[k];
  }

  /** The loop of `_key_states`: starting from sixteen lowered flags, visits
      the keys of the keypad mapping `inv` in `order` and raises the flag of
      each key whose physical key is held. */
  method FlagHeldKeys(order: seq<int>, inv: map<int, char>, held: set<char>) returns (states: seq<bool>)
    requires forall k :: k in order <==> 0 <= k < KeyCount
    requires forall k :: k in inv <==> 0 <= k < KeyCount
    ensures |states| == KeyCount
    ensures forall k :: 0 <= k < KeyCount ==> (states[k] <==> inv[k] in held)
  {
    states := seq(KeyCount, _ => false);
    for n := 0 to |order|
      invariant |states| == KeyCount
      invariant forall k :: 0 <= k < KeyCount ==> (states[k] <==> k in order[..n] && inv[k] in held)
    {
      var k := order[n];
      assert k in order;
      if inv[k] in held {
        states := states[k := true];
      }
      assert order[..n + 1] == order[..n] + [k];
    }
    assert order[..|order|] == order;
  }

  /** Key `k` went down between two snapshots of the keypad. */
  predicate Rises(prev: seq<bool>, curr: seq<bool>, k: nat)
    requires k < |prev| == |curr|
  {
    curr[k] && !prev[k]
  }

  /** The lowest key from `from` on that went down between `prev` and `curr`. */
  function RisingEdgeFrom(prev: seq<bool>, curr: seq<bool>, from: nat): (r: Option<nat>)
    requires |prev| == |curr| && from <= |curr|
    ensures r.Some? ==> (
      && from <= r.value < |curr| && Rises(prev, curr, r.value)
      && forall k :: from <= k < r.value ==> !Rises(prev, curr, k))
    ensures r.None? ==> forall k :: from <= k < |curr| ==> !Rises(prev, curr, k)
    decreases |curr| - from
  {
    if from == |curr| then None
    else if Rises(prev, curr, from) then Some(from)
    else RisingEdgeFrom(prev, curr, from + 1)
  }

  /** The lowest key that went down between `prev` and `curr`, if any. */
  function RisingEdge(prev: seq<bool>, curr: seq<bool>): (r: Option<nat>)
    requires |prev| == |curr|
    ensures r.Some? ==> (
      && r.value < |curr| && Rises(prev, curr, r.value)
      && forall k :: 0 <= k < r.value ==> !Rises(prev, curr, k))
    ensures r.None? ==> forall k :: 0 <= k < |curr| ==> !Rises(prev, curr, k)
  {
    RisingEdgeFrom(prev, curr, 0)
  }

  /** The scan inside `wait_store_key`: the first index whose flag is up now
      and was down before. */
  method ScanRisingEdge(prev: seq<bool>, curr: seq<bool>) returns (r: Option<nat>)
    requires |prev| == |curr|
    ensures r == RisingEdge(prev, curr)
  {
    for idx := 0 to |curr|
      invariant forall k :: 0 <= k < idx ==> !Rises(prev, curr, k)
    {
      if curr[idx] && !prev[idx] {
        assert Rises(prev, curr, idx);
        return Some(idx);
      }
    }
    return None;
  }

  /** What `wait_store_key` returns after reading `baseline` and then each
      of `polls` in turn: the lowest key that went down between two
      consecutive readings, at the first reading where one did; `None` when
      none did (the source then keeps polling). */
  function FirstPress(baseline: set<char>, polls: seq<set<char>>): Option<nat>
    decreases |polls|
  {
    if polls == [] then None
    else match RisingEdge(KeyStateView(baseline), KeyStateView(polls[0]))
      case Some(k) => Some(k)
      case None => FirstPress(polls[0], polls[1..])
  }

  /** `wait_store_key`, over a finite run of keyboard readings. */
  method WaitStoreKey(baseline: set<char>, polls: seq<set<char>>) returns (key: Option<nat>)
    ensures key == FirstPress(baseline, polls)
  {
    var prevStates := KeyStates(baseline);
    ghost var prevHeld := baseline;
    for n := 0 to |polls|
      invariant prevStates == KeyStateView(prevHeld)
      invariant FirstPress(baseline, polls) == FirstPress(prevHeld, polls[n..])
    {
      var currStates := KeyStates(polls[n]);
      var edge := ScanRisingEdge(prevStates, currStates);
      assert polls[n..][1..] == polls[n + 1..];
      if edge.Some? {
        return edge;
      }
      prevStates := currStates;
      prevHeld := polls[n];
    }
    return None;
  }

  /** Keypad key `k` is held in the keyboard reading `held`. */
  predicate Held(held: set<char>, k: nat)
  {
    KeyPressed(held, k) == Ok(true)
  }

  /** Keypad key `k` is held in reading `t` of `polls` and was not in the
      reading before it (`baseline` before the first). */
  predicate PressedAt(baseline: set<char>, polls: seq<set<char>>, t: nat, k: nat)
    requires t < |polls|
  {
    Held(polls[t], k) && !Held(if t == 0 then baseline else polls[t - 1], k)
  }

  /** Key `k` went down at reading `t`, no key went down at an earlier
      reading, and no lower key went down at reading `t`. */
  ghost predicate EarliestPress(baseline: set<char>, polls: seq<set<char>>, t: nat, k: nat)
    requires t < |polls|
  {
    && k < KeyCount && PressedAt(baseline, polls, t, k)
    && (forall t': nat, k': nat :: t' < t && k' < KeyCount ==> !PressedAt(baseline, polls, t', k'))
    && (forall k': nat :: k' < k ==> !PressedAt(baseline, polls, t, k'))
  }

  /** Reading `t` of a run is reading `t - 1` of the run that starts after
      the first reading, with the first reading as its baseline. */
  lemma PressedAtShift(baseline: set<char>, polls: seq<set<char>>, t: nat, k: nat)
    requires 0 < t < |polls|
    ensures PressedAt(baseline, polls, t, k) == PressedAt(polls[0], polls[1..], t - 1, k)
  {
    if t > 1 {
      assert polls[1..][t - 2] == polls[t - 1];
    }
  }

  /** A key pressed at the first reading is a rising edge between the
      baseline and that reading. */
  lemma PressedAtFirst(baseline: set<char>, polls: seq<set<char>>, k: nat)
    requires 0 < |polls| && k < KeyCount
    ensures PressedAt(baseline, polls, 0, k) == Rises(KeyStateView(baseline), KeyStateView(polls[0]), k)
  {
  }

  /** When nothing went down at the first reading, the earliest press of
      the rest of the run is the earliest press of the whole run. */
  lemma EarliestPressShift(baseline: set<char>, polls: seq<set<char>>, t: nat, k: nat)
    requires t + 1 < |polls|
    requires RisingEdge(KeyStateView(baseline), KeyStateView(polls[0])).None?
    requires EarliestPress(polls[0], polls[1..], t, k)
    ensures EarliestPress(baseline, polls, t + 1, k)
  {
    var u := t + 1;
    forall t': nat, k': nat | t' < u && k' < KeyCount
      ensures !PressedAt(baseline, polls, t', k')
    {
      if t' == 0 {
        PressedAtFirst(baseline, polls, k');
      } else {
        PressedAtShift(baseline, polls, t', k');
      }
    }
    forall k': nat | k' < k
      ensures !PressedAt(baseline, polls, u, k')
    {
      PressedAtShift(baseline, polls, u, k');
    }
    PressedAtShift(baseline, polls, u, k);
  }

  /** A reported key is the lowest keypad key that went down at the first
      reading where any key went down. */
  lemma {:induction false} FirstPressIsNewPress(baseline: set<char>, polls: seq<set<char>>)
    requires FirstPress(baseline, polls).Some?
    ensures exists t :: 0 <= t < |polls| && EarliestPress(baseline, polls, t, FirstPress(baseline, polls).value)
    decreases |polls|
  {
    var k := FirstPress(baseline, polls).value;
    var prev, curr := KeyStateView(baseline), KeyStateView(polls[0]);
    match RisingEdge(prev, curr)
    case Some(j) =>
      assert j == k;
      PressedAtFirst(baseline, polls, k);
      forall k': nat | k' < k
        ensures !PressedAt(baseline, polls, 0, k')
      {
        PressedAtFirst(baseline, polls, k');
      }
      assert EarliestPress(baseline, polls, 0, k);
    case None =>
      FirstPressIsNewPress(polls[0], polls[1..]);
      var t :| 0 <= t < |polls[1..]| && EarliestPress(polls[0], polls[1..], t, k);
      EarliestPressShift(baseline, polls, t, k);
  }

  /** A keypad key that goes down at any reading of the run gets a key
      reported. */
  lemma {:induction false} PressIsFound(baseline: set<char>, polls: seq<set<char>>, t: nat, k: nat)
    requires t < |polls| && k < KeyCount && PressedAt(baseline, polls, t, k)
    ensures FirstPress(baseline, polls).Some?
    decreases |polls|
  {
    var prev, curr := KeyStateView(baseline), KeyStateView(polls[0]);
    if RisingEdge(prev, curr).None? {
      PressedAtFirst(baseline, polls, k);
      assert t > 0;
      PressedAtShift(baseline, polls, t, k);
      PressIsFound(polls[0], polls[1..], t - 1, k);
    }
  }

  /** A key held down from the first reading to the last is never the one
      reported. */
  lemma {:induction false} HeldKeyNeverReported(baseline: set<char>, polls: seq<set<char>>, k: nat)
    requires Held(baseline, k) && forall t :: 0 <= t < |polls| ==> Held(polls[t], k)
    ensures FirstPress(baseline, polls) != Some(k)
    decreases |polls|
  {
    if polls != [] {
      var prev, curr := KeyStateView(baseline), KeyStateView(polls[0]);
      assert !Rises(prev, curr, k);
      HeldKeyNeverReported(polls[0], polls[1..], k);
    }
  }

  /** Pressing one physical key on an idle keyboard reports the keypad key it
      stands for. */
  lemma SinglePressReported(q: char)
    requires q in QwertyToChip8
    ensures FirstPress({}, [{q}]) == Some(QwertyToChip8[q])
  {
    MappingIsBijection();
    var k := QwertyToChip8[q];
    var prev, curr := KeyStateView({}), KeyStateView({q});
    assert Rises(prev, curr, k);
    forall j | 0 <= j < k
      ensures !Rises(prev, curr, j)
    {
      assert Chip8ToQwerty()[j] != q;
    }
  }
}
