/**
 * The bridge-domain settings cell: `/`-separated `Key:value` segments from
 * which three flags are read (unicast routing, unknown-unicast action, ARP
 * flooding).
 */
module Settings {
  import opened Wrappers
  import opened PyText

  /**
   * The three decoded flags, as text. The empty string means the cell did not
   * set the flag; it is passed on to the controller as it is.
   */
  datatype BdSettings = BdSettings(unicastRoute: string, unkUcast: string, arpFlood: string)

  /** All three flags start out as the empty string. */
  const Unset := BdSettings("", "", "")

  datatype Flag = UniRtg | L2UnkUni | ArpFlood

  /**
   * A segment whose key names a flag but which has no `:` has no second
   * field; the script's `split(':')[1]` then raises an `IndexError`.
   */
  datatype DecodeError = MissingValue(segment: string)

  /** The flag a key selects: the keys are compared exactly, case included. */
  function FlagOf(key: string): Option<Flag> {
    if key == "UniRtg" then Some(UniRtg)
    else if key == "L2UnkUni" then Some(L2UnkUni)
    else if key == "ArpFlood" then Some(ArpFlood)
    else None
  }

  function Get(s: BdSettings, f: Flag): string {
    match f
    case UniRtg => s.unicastRoute
    case L2UnkUni => s.unkUcast
    case ArpFlood => s.arpFlood
  }

  function Set(s: BdSettings, f: Flag, v: string): (r: BdSettings)
    ensures Get(r, f) == v
    ensures forall g :: g != f ==> Get(r, g) == Get(s, g)
  {
    match f
    case UniRtg => s.(unicastRoute := v)
    case L2UnkUni => s.(unkUcast := v)
    case ArpFlood => s.(arpFlood := v)
  }

  /** `pair.split(':')[0].strip()`: the key of a segment. */
  function KeyOf(seg: string): (k: string)
    ensures Trimmed(k)
  {
    Strip(Split(seg, ':')[0])
  }

  /** `pair.split(':')` has an element at index 1. */
  predicate HasValue(seg: string) {
    |Split(seg, ':')| >= 2
  }

  /** `pair.split(':')[1].lower().strip()`: the second `:`-field, lowered and stripped. */
  function ValueOf(seg: string): (v: string)
    requires HasValue(seg)
    ensures Trimmed(v)
    ensures forall i :: 0 <= i < |v| ==> !('A' <= v[i] <= 'Z')
  {
    var low := Lower(Split(seg, ':')[1]);
    var v := Strip(low);
    assert forall i :: 0 <= i < |v| ==> v[i] == low[LeadingSpace(low) + i];
    v
  }

  /** A segment on which the script raises: its key names a flag but it has no value. */
  predicate Malformed(seg: string) {
    FlagOf(KeyOf(seg)).Some? && !HasValue(seg)
  }

  /** The effect of one segment on the flags decoded so far. */
  function Step(acc: BdSettings, seg: string): (r: Result<BdSettings, DecodeError>)
    ensures r.Err? <==> Malformed(seg)
    ensures r.Err? ==> r.error == MissingValue(seg)
  {
    match FlagOf(KeyOf(seg))
    case None => Ok(acc)
    case Some(f) => if HasValue(seg) then Ok(Set(acc, f, ValueOf(seg))) else Err(MissingValue(seg))
  }

  /** The segments applied left to right; the first error stops the decoding. */
  function Apply(acc: BdSettings, segs: seq<string>): Result<BdSettings, DecodeError>
    decreases |segs|
  {
    if segs == [] then Ok(acc)
    else
      match Step(acc, segs[0])
      case Err(e) => Err(e)
      case Ok(next) => Apply(next, segs[1..])
  }

  /** The settings a raw cell decodes to. */
  function Decode(raw: string): Result<BdSettings, DecodeError> {
    Apply(Unset, Split(raw, '/'))
  }

  /**
   * The decoding loop of the script: three local flags, overwritten segment
   * by segment.
   */
  method DecodeSettings(raw: string) returns (r: Result<BdSettings, DecodeError>)
    ensures r == Decode(raw)
  {
    var arpFlood := "";
    var unicastRoute := "";
    var unkUcast := "";
    var pairs := Split(raw, '/');
    var i := 0;
    while i < |pairs|
      invariant 0 <= i <= |pairs|
      invariant Decode(raw) == Apply(BdSettings(unicastRoute, unkUcast, arpFlood), pairs[i..])
    {
      var pair := pairs[i];
      var fields := Split(pair, ':');
      var key := Strip(fields[0]);
      if key == "UniRtg" || key == "L2UnkUni" || key == "ArpFlood" {
        if |fields| < 2 {
          return Err(MissingValue(pair));
        }
        var value := Strip(Lower(fields[1]));
        if key == "UniRtg" {
          unicastRoute := value;
        } else if key == "L2UnkUni" {
          unkUcast := value;
        } else {
          arpFlood := value;
        }
      }
      i := i + 1;
    }
    r := Ok(BdSettings(unicastRoute, unkUcast, arpFlood));
  }

  // ------------------------------------------------------------ properties

  /**
   * A segment whose key is none of the three leaves every flag as it was; so
   * does an empty segment or a text without `:` that is not one of the keys.
   */
  lemma IgnoredSegment(acc: BdSettings, seg: string)
    requires FlagOf(KeyOf(seg)).None?
    ensures Step(acc, seg) == Ok(acc)
  {
  }

  lemma EmptySegmentIgnored(acc: BdSettings)
    ensures Step(acc, "") == Ok(acc)
  {
    assert KeyOf("") == "";
  }

  /**
   * A recognised segment with a value sets its own flag to that value and
   * leaves the other two alone.
   */
  lemma MatchedSegment(acc: BdSettings, seg: string, f: Flag)
    requires FlagOf(KeyOf(seg)) == Some(f) && HasValue(seg)
    ensures Step(acc, seg).Ok?
    ensures Get(Step(acc, seg).value, f) == ValueOf(seg)
    ensures forall g :: g != f ==> Get(Step(acc, seg).value, g) == Get(acc, g)
  {
  }

  /** Decoding fails exactly when some segment is malformed. */
  lemma {:induction false} ApplyFails(acc: BdSettings, segs: seq<string>)
    ensures Apply(acc, segs).Err? <==> exists i :: 0 <= i < |segs| && Malformed(segs[i])
    decreases |segs|
  {
    if segs != [] {
      match Step(acc, segs[0])
      case Err(e) =>
        assert Malformed(segs[0]);
      case Ok(next) =>
        ApplyFails(next, segs[1..]);
        assert !Malformed(segs[0]);
        if exists i :: 0 <= i < |segs| && Malformed(segs[i]) {
          var i :| 0 <= i < |segs| && Malformed(segs[i]);
          assert Malformed(segs[1..][i - 1]);
        }
        if exists i :: 0 <= i < |segs[1..]| && Malformed(segs[1..][i]) {
          var i :| 0 <= i < |segs[1..]| && Malformed(segs[1..][i]);
          assert Malformed(segs[i + 1]);
        }
    }
  }

  /** Index of the last segment whose key selects `f`, or -1 when there is none. */
  function LastFor(segs: seq<string>, f: Flag): (k: int)
    ensures -1 <= k < |segs|
    ensures k >= 0 ==> FlagOf(KeyOf(segs[k])) == Some(f)
    ensures forall j :: k < j < |segs| ==> FlagOf(KeyOf(segs[j])) != Some(f)
  {
    if segs == [] then -1
    else if FlagOf(KeyOf(segs[|segs| - 1])) == Some(f) then |segs| - 1
    else
      var init := segs[..|segs| - 1];
      assert forall j :: 0 <= j < |init| ==> init[j] == segs[j];
      LastFor(init, f)
  }

  lemma {:induction false} LastForCons(seg: string, segs: seq<string>, f: Flag)
    ensures LastFor([seg] + segs, f) ==
      if LastFor(segs, f) >= 0 then LastFor(segs, f) + 1
      else if FlagOf(KeyOf(seg)) == Some(f) then 0 else -1
  {
    var all := [seg] + segs;
    if segs != [] {
      assert all[..|all| - 1] == [seg] + segs[..|segs| - 1];
      assert all[|all| - 1] == segs[|segs| - 1];
      LastForCons(seg, segs[..|segs| - 1], f);
    } else {
      assert all[..|all| - 1] == [];
    }
  }

  /**
   * When a key repeats, its last occurrence wins: after a successful decode
   * every flag holds the value of the last segment that names it, or what it
   * held before when no segment does.
   */
  lemma {:induction false} LastOccurrenceWins(acc: BdSettings, segs: seq<string>, f: Flag)
    requires Apply(acc, segs).Ok?
    ensures var k := LastFor(segs, f);
      k >= 0 ==> HasValue(segs[k]) && Get(Apply(acc, segs).value, f) == ValueOf(segs[k])
    ensures LastFor(segs, f) < 0 ==> Get(Apply(acc, segs).value, f) == Get(acc, f)
    decreases |segs|
  {
    if segs != [] {
      var next := ApplyHead(acc, segs);
      var tail := segs[1..];
      LastOccurrenceWins(next, tail, f);
      LastForTail(segs, f);
      if LastFor(tail, f) >= 0 {
        assert segs[LastFor(segs, f)] == tail[LastFor(tail, f)];
      } else {
        FirstSegmentFor(acc, segs[0], f);
      }
    }
  }

  /** LastFor seen from the front: the tail's last occurrence, shifted, or else the head. */
  lemma LastForTail(segs: seq<string>, f: Flag)
    requires segs != []
    ensures LastFor(segs, f) ==
      if LastFor(segs[1..], f) >= 0 then LastFor(segs[1..], f) + 1
      else if FlagOf(KeyOf(segs[0])) == Some(f) then 0 else -1
  {
    assert [segs[0]] + segs[1..] == segs;
    LastForCons(segs[0], segs[1..], f);
  }

  /** A successful decoding starts with a successful first step. */
  lemma ApplyHead(acc: BdSettings, segs: seq<string>) returns (next: BdSettings)
    requires segs != [] && Apply(acc, segs).Ok?
    ensures Step(acc, segs[0]) == Ok(next) && Apply(acc, segs) == Apply(next, segs[1..])
  {
    next := Step(acc, segs[0]).value;
  }

  /** A successful step on a segment naming `f` gives `f` that segment's value; another segment leaves `f` alone. */
  lemma FirstSegmentFor(acc: BdSettings, seg: string, f: Flag)
    requires Step(acc, seg).Ok?
    ensures FlagOf(KeyOf(seg)) == Some(f) ==> HasValue(seg) && Get(Step(acc, seg).value, f) == ValueOf(seg)
    ensures FlagOf(KeyOf(seg)) != Some(f) ==> Get(Step(acc, seg).value, f) == Get(acc, f)
  {
  }

  /** Decoding from the initial flags: a flag no segment names stays the empty string. */
  lemma DecodeFlag(raw: string, f: Flag)
    requires Decode(raw).Ok?
    ensures var segs := Split(raw, '/'); var k := LastFor(segs, f);
      k >= 0 ==> HasValue(segs[k]) && Get(Decode(raw).value, f) == ValueOf(segs[k])
    ensures LastFor(Split(raw, '/'), f) < 0 ==> Get(Decode(raw).value, f) == ""
  {
    LastOccurrenceWins(Unset, Split(raw, '/'), f);
  }

  /** Decoding a concatenation is decoding its two parts one after the other. */
  lemma {:induction false} ApplyConcat(acc: BdSettings, p: seq<string>, q: seq<string>)
    ensures Apply(acc, p + q) ==
      match Apply(acc, p)
      case Err(e) => Err(e)
      case Ok(mid) => Apply(mid, q)
    decreases |p|
  {
    if p == [] {
      assert p + q == q;
    } else {
      assert (p + q)[0] == p[0];
      assert (p + q)[1..] == p[1..] + q;
      match Step(acc, p[0]) {
        case Err(e) =>
        case Ok(next) => ApplyConcat(next, p[1..], q);
      }
    }
  }

  /** Two decodings agree when both fail or both succeed with the same flags. */
  predicate SameOutcome(r1: Result<BdSettings, DecodeError>, r2: Result<BdSettings, DecodeError>) {
    r1.Ok? == r2.Ok? && (r1.Ok? ==> r1.value == r2.value)
  }

  /** Setting two different flags commutes. */
  lemma SetCommutes(acc: BdSettings, f: Flag, v: string, g: Flag, w: string)
    requires f != g
    ensures Set(Set(acc, f, v), g, w) == Set(Set(acc, g, w), f, v)
  {
  }

  /** Two segments with different keys give the same outcome in either order. */
  lemma StepsCommute(acc: BdSettings, a: string, b: string)
    requires KeyOf(a) != KeyOf(b)
    ensures SameOutcome(Apply(acc, [a, b]), Apply(acc, [b, a]))
  {
    assert [a, b][1..] == [b] && [b, a][1..] == [a];
    assert [a][1..] == [] && [b][1..] == [];
    var fa, fb := FlagOf(KeyOf(a)), FlagOf(KeyOf(b));
    if fa.None? {
      assert Step(acc, a) == Ok(acc);
      match Step(acc, b) {
        case Err(_) =>
        case Ok(mb) => assert Step(mb, a) == Ok(mb);
      }
    } else if fb.None? {
      assert Step(acc, b) == Ok(acc);
      match Step(acc, a) {
        case Err(_) =>
        case Ok(ma) => assert Step(ma, b) == Ok(ma);
      }
    } else {
      assert fa.value != fb.value;
      if HasValue(a) && HasValue(b) {
        var va, vb := ValueOf(a), ValueOf(b);
        SetCommutes(acc, fa.value, va, fb.value, vb);
        assert Step(acc, a) == Ok(Set(acc, fa.value, va));
        assert Step(acc, b) == Ok(Set(acc, fb.value, vb));
        assert Step(Set(acc, fa.value, va), b) == Ok(Set(Set(acc, fa.value, va), fb.value, vb));
        assert Step(Set(acc, fb.value, vb), a) == Ok(Set(Set(acc, fb.value, vb), fa.value, va));
      } else if HasValue(a) {
        assert Step(Set(acc, fa.value, ValueOf(a)), b).Err?;
      } else if HasValue(b) {
        assert Step(Set(acc, fb.value, ValueOf(b)), a).Err?;
      }
    }
  }

  /** Two neighbouring segments with different keys can change places. */
  lemma SwapNeighbours(acc: BdSettings, pre: seq<string>, a: string, b: string, post: seq<string>)
    requires KeyOf(a) != KeyOf(b)
    ensures SameOutcome(Apply(acc, pre + [a, b] + post), Apply(acc, pre + [b, a] + post))
  {
    ApplyConcat(acc, pre + [a, b], post);
    ApplyConcat(acc, pre + [b, a], post);
    ApplyConcat(acc, pre, [a, b]);
    ApplyConcat(acc, pre, [b, a]);
    match Apply(acc, pre) {
      case Err(e) =>
      case Ok(mid) => StepsCommute(mid, a, b);
    }
  }

  // -------------------------------------------------------------- examples

  /** A cell without `/` is a single segment. */
  lemma DecodeSingle(raw: string)
    requires '/' !in raw
    ensures Decode(raw) == Step(Unset, raw)
  {
    SplitNoSep(raw, '/');
    assert [raw][1..] == [];
    match Step(Unset, raw) {
      case Err(_) =>
      case Ok(next) => assert Apply(next, []) == Ok(next);
    }
  }

  /** A cell with one `/` is two segments, applied in order. */
  lemma DecodePair(a: string, b: string)
    requires '/' !in a && '/' !in b
    ensures Decode(a + "/" + b) ==
      match Step(Unset, a)
      case Err(e) => Err(e)
      case Ok(mid) => Step(mid, b)
  {
    SplitAround(a, '/', b);
    SplitNoSep(a, '/');
    SplitNoSep(b, '/');
    assert Split(a + "/" + b, '/') == [a, b];
    assert [a, b][1..] == [b] && [b][1..] == [];
    match Step(Unset, a) {
      case Err(_) =>
      case Ok(mid) =>
        assert Apply(Unset, [a, b]) == Apply(mid, [b]);
        match Step(mid, b) {
          case Err(_) =>
          case Ok(next) => assert Apply(mid, [b]) == Apply(next, []) == Ok(next);
        }
    }
  }

  /** A segment without `:` is all key and has no value. */
  lemma NoColonSegment(seg: string)
    requires ':' !in seg
    ensures KeyOf(seg) == Strip(seg) && !HasValue(seg)
  {
    SplitNoSep(seg, ':');
  }

  /** In `k:v` the key is `k` stripped and the value is the first `:`-field of `v`. */
  lemma KeyValueSegment(k: string, v: string)
    requires ':' !in k
    ensures KeyOf(k + ":" + v) == Strip(k) && HasValue(k + ":" + v)
    ensures ValueOf(k + ":" + v) == Strip(Lower(Split(v, ':')[0]))
  {
    SplitPrefix(k, ':', v);
  }

  lemma DecodeEmpty()
    ensures Decode("") == Ok(Unset)
  {
    DecodeSingle("");
    EmptySegmentIgnored(Unset);
  }

  /**
   * A segment without `:` whose stripped text is not one of the keys (say
   * "GarbageNoColon") leaves the flags alone.
   */
  lemma ColonlessIgnored(acc: BdSettings, seg: string)
    requires ':' !in seg && FlagOf(Strip(seg)).None?
    ensures Step(acc, seg) == Ok(acc)
  {
    NoColonSegment(seg);
  }

  /** A segment that is a key and nothing else (say "UniRtg") is the script's `IndexError`. */
  lemma ColonlessKeyFails(acc: BdSettings, seg: string)
    requires ':' !in seg && FlagOf(Strip(seg)).Some?
    ensures Step(acc, seg) == Err(MissingValue(seg))
  {
    NoColonSegment(seg);
  }

  /**
   * A cell `k1:v1/k2:v2` naming two different flags sets both to their
   * lowered, stripped values and leaves the third flag unset; this is the
   * shape of "UniRtg:Yes/ArpFlood:no", which gives unicast routing "yes",
   * ARP flooding "no" and the unknown-unicast action "".
   */
  lemma DecodeTwoSettings(k1: string, v1: string, k2: string, v2: string, f1: Flag, f2: Flag)
    requires ':' !in k1 && ':' !in k2 && ':' !in v1 && ':' !in v2
    requires '/' !in k1 && '/' !in k2 && '/' !in v1 && '/' !in v2
    requires FlagOf(Strip(k1)) == Some(f1) && FlagOf(Strip(k2)) == Some(f2)
    ensures Decode(k1 + ":" + v1 + "/" + k2 + ":" + v2).Ok?
    ensures var s := Decode(k1 + ":" + v1 + "/" + k2 + ":" + v2).value;
      Get(s, f2) == Strip(Lower(v2)) &&
      (f1 != f2 ==> Get(s, f1) == Strip(Lower(v1))) &&
      (forall g :: g != f1 && g != f2 ==> Get(s, g) == "")
  {
    var a, b := k1 + ":" + v1, k2 + ":" + v2;
    KeyValueValue(k1, v1);
    KeyValueValue(k2, v2);
    assert '/' !in a && '/' !in b;
    var x := a + "/";
    Assoc(x, k2 + ":", v2);
    Assoc(x, k2, ":");
    DecodeTwoSegments(a, b, f1, f2);
  }

  /** In `k:v` with no further `:` the value is `v`, lowered and stripped. */
  lemma KeyValueValue(k: string, v: string)
    requires ':' !in k && ':' !in v
    ensures KeyOf(k + ":" + v) == Strip(k) && HasValue(k + ":" + v)
    ensures ValueOf(k + ":" + v) == Strip(Lower(v))
  {
    KeyValueSegment(k, v);
    SplitNoSep(v, ':');
  }

  /** Two segments naming flags, each with a value, set their flags; the second wins a tie. */
  lemma DecodeTwoSegments(a: string, b: string, f1: Flag, f2: Flag)
    requires '/' !in a && '/' !in b
    requires FlagOf(KeyOf(a)) == Some(f1) && HasValue(a)
    requires FlagOf(KeyOf(b)) == Some(f2) && HasValue(b)
    ensures Decode(a + "/" + b).Ok?
    ensures var s := Decode(a + "/" + b).value;
      Get(s, f2) == ValueOf(b) &&
      (f1 != f2 ==> Get(s, f1) == ValueOf(a)) &&
      (forall g :: g != f1 && g != f2 ==> Get(s, g) == "")
  {
    DecodePair(a, b);
    MatchedSegment(Unset, a, f1);
    MatchedSegment(Step(Unset, a).value, b, f2);
  }
}
