/**
 The filter-mode state of blur.py: the variable `filter_mode` says which of six
 image filters, if any, is applied to the face region, and the digit keys
 "1" to "6" toggle it between one filter and no filter.
 */
module FilterMode {
  import opened Wrappers

  /** The six filters that keys "1" to "6" select, in key order. */
  datatype Filter = Gaussian | Median | Average | Sobel | Prewitt | Laplacian

  /** The value of `filter_mode`: no filter (Python's `None`), or one filter. */
  datatype Mode = Off | On(filter: Filter)

  /** `filter_mode = None` before the capture loop starts. */
  const Initial: Mode := Off

  /** Before the loop runs, `filter_mode` is Python's `None`. */
  lemma InitialModeIsNone()
    ensures Name(Initial) == None
  {
  }

  /** A key code as the loop compares it, after masking to eight bits. */
  type Key = k: int | 0 <= k < 256

  /** The key that ends the capture loop. */
  const QuitKey: Key := 'q' as int

  /** The names the six filters carry in `filter_mode`. */
  const FilterNames: set<string> := {"gaussian", "median", "average", "sobel", "prewitt", "laplacian"}

  /**
   `cv2.waitKey(1) & 0xFF`: the low eight bits of the raw key code. waitKey
   gives -1 when no key was pressed within the wait, which masks to 255.
   */
  function KeyCode(raw: int): (k: Key)
    ensures (raw - k) % 256 == 0
    ensures 0 <= raw < 256 ==> k == raw
    ensures raw == -1 ==> k == 255
  {
    raw % 256
  }

  /** The Python value of `filter_mode` for each mode. */
  function Name(m: Mode): (s: Option<string>)
    ensures s.None? <==> m == Off
    ensures s.Some? ==> s.value in FilterNames
  {
    match m
    case Off => None
    case On(Gaussian) => Some("gaussian")
    case On(Median) => Some("median")
    case On(Average) => Some("average")
    case On(Sobel) => Some("sobel")
    case On(Prewitt) => Some("prewitt")
    case On(Laplacian) => Some("laplacian")
  }

  /** Distinct modes have distinct Python values, so comparing names is comparing modes. */
  lemma NameInjective(m1: Mode, m2: Mode)
    ensures Name(m1) == Name(m2) <==> m1 == m2
  {
  }

  /** Every one of the seven Python values is the name of some mode. */
  lemma NameOnto(s: Option<string>)
    requires s.None? || s.value in FilterNames
    ensures exists m :: Name(m) == s
  {
    if s.None? {
      assert Name(Off) == s;
    } else if s.value == "gaussian" {
      assert Name(On(Gaussian)) == s;
    } else if s.value == "median" {
      assert Name(On(Median)) == s;
    } else if s.value == "average" {
      assert Name(On(Average)) == s;
    } else if s.value == "sobel" {
      assert Name(On(Sobel)) == s;
    } else if s.value == "prewitt" {
      assert Name(On(Prewitt)) == s;
    } else {
      assert Name(On(Laplacian)) == s;
    }
  }

  /** The digit key bound to each filter. */
  function KeyFor(f: Filter): (k: Key)
    ensures '1' as int <= k <= '6' as int
  {
    match f
    case Gaussian => '1' as int
    case Median => '2' as int
    case Average => '3' as int
    case Sobel => '4' as int
    case Prewitt => '5' as int
    case Laplacian => '6' as int
  }

  /** The filter a key toggles, if it toggles one. */
  function FilterFor(k: Key): (r: Option<Filter>)
    ensures r.Some? <==> '1' as int <= k <= '6' as int
    ensures r.Some? ==> KeyFor(r.value) == k
    ensures forall f :: KeyFor(f) == k ==> r == Some(f)
  {
    if k == '1' as int then Some(Gaussian)
    else if k == '2' as int then Some(Median)
    else if k == '3' as int then Some(Average)
    else if k == '4' as int then Some(Sobel)
    else if k == '5' as int then Some(Prewitt)
    else if k == '6' as int then Some(Laplacian)
    else None
  }

  /** `filter_mode = "<f>" if filter_mode != "<f>" else None`. */
  function Toggle(m: Mode, f: Filter): (r: Mode)
    ensures r == On(f) <==> m != On(f)
    ensures r == Off <==> m == On(f)
  {
    if m != On(f) then On(f) else Off
  }

  /**
   The new `filter_mode` after one key: the elif chain on the key code. The
   quit key breaks out of the loop before any assignment, and any other key
   matches no branch, so both leave the mode as it was.
   */
  function Step(m: Mode, k: Key): (r: Mode)
    ensures FilterFor(k).None? ==> r == m
    ensures FilterFor(k).Some? ==> r == Toggle(m, FilterFor(k).value)
  {
    if k == '1' as int then Toggle(m, Gaussian)
    else if k == '2' as int then Toggle(m, Median)
    else if k == '3' as int then Toggle(m, Average)
    else if k == '4' as int then Toggle(m, Sobel)
    else if k == '5' as int then Toggle(m, Prewitt)
    else if k == '6' as int then Toggle(m, Laplacian)
    else m
  }

  /**
   The mode after a sequence of keys pressed in order. A key that toggles no
   filter, the quit key among them, leaves the mode as it is. The final mode is
   the starting one, no filter, or the filter of one of the keys.
   */
  function Press(m: Mode, keys: seq<Key>): (r: Mode)
    ensures r == m || r == Off || exists i :: 0 <= i < |keys| && FilterFor(keys[i]) == Some(r.filter)
    decreases |keys|
  {
    if |keys| == 0 then m else Press(Step(m, keys[0]), keys[1..])
  }

  /**
   A digit key leaves the mode at its own filter or at no filter, and at no
   filter exactly when its filter was the one already on.
   */
  lemma StepDigit(m: Mode, f: Filter)
    ensures Step(m, KeyFor(f)) == On(f) || Step(m, KeyFor(f)) == Off
    ensures Step(m, KeyFor(f)) == Off <==> m == On(f)
  {
  }

  /** A key that is neither a digit "1" to "6" nor the quit key changes nothing; nor does the quit key. */
  lemma StepOtherKey(m: Mode, k: Key)
    requires !('1' as int <= k <= '6' as int)
    ensures Step(m, k) == m
  {
  }

  /**
   Pressing the same digit twice gives back the starting mode exactly when
   that mode was no filter or the digit's own filter; from another filter it
   ends at no filter.
   */
  lemma StepTwice(m: Mode, f: Filter)
    ensures Step(Step(m, KeyFor(f)), KeyFor(f)) == m <==> m == Off || m == On(f)
    ensures m != Off && m != On(f) ==> Step(Step(m, KeyFor(f)), KeyFor(f)) == Off
  {
  }

  /** Each of the six filters is one key away from the initial mode. */
  lemma EveryFilterReachable(f: Filter)
    ensures Press(Initial, [KeyFor(f)]) == On(f)
  {
    assert [KeyFor(f)][1..] == [];
  }

  /**
   Pressing one digit n times, starting from no filter or from that digit's
   filter, ends at the starting mode when n is even and at the toggled mode
   when n is odd.
   */
  lemma {:induction false} PressRepeatedly(m: Mode, f: Filter, n: nat)
    requires m == Off || m == On(f)
    ensures Press(m, seq(n, _ => KeyFor(f))) == if n % 2 == 0 then m else Toggle(m, f)
    decreases n
  {
    var keys := seq(n, _ => KeyFor(f));
    if n > 0 {
      var m' := Step(m, KeyFor(f));
      assert keys[0] == KeyFor(f);
      assert keys[1..] == seq(n - 1, _ => KeyFor(f));
      PressRepeatedly(m', f, n - 1);
    }
  }

  /** A run of keys none of which is a digit "1" to "6" leaves the mode unchanged. */
  lemma {:induction false} PressIgnoresOtherKeys(m: Mode, keys: seq<Key>)
    requires forall i :: 0 <= i < |keys| ==> FilterFor(keys[i]).None?
    ensures Press(m, keys) == m
  {
    if |keys| > 0 {
      PressIgnoresOtherKeys(m, keys[1..]);
    }
  }

  /** Pressing two runs of keys one after the other is pressing their concatenation. */
  lemma {:induction false} PressAppend(m: Mode, a: seq<Key>, b: seq<Key>)
    ensures Press(m, a + b) == Press(Press(m, a), b)
    decreases |a|
  {
    if |a| > 0 {
      assert (a + b)[0] == a[0];
      assert (a + b)[1..] == a[1..] + b;
      PressAppend(Step(m, a[0]), a[1..], b);
    } else {
      assert a + b == b;
    }
  }
}
