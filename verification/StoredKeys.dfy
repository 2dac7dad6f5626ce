/** The key under which a patch stores a member, and why no keys can change places under it. */
module StoredKeys {
  import opened CStrings
  import opened Pointer

  /** A key as it comes out of the in-place decoder. */
  function Stored(key: string): string {
    DecodeInPlace(Encode(key))
  }

  /**
   * The decoder as a stream: `behind` are the bytes between the place it writes to and the place it reads from.
   * Ordinary bytes are not copied, so the byte that stays is the first of those.
   */
  function Shifted(behind: string, key: string): (r: string)
    ensures |r| == |key|
    decreases |key|
  {
    if key == "" then ""
    else if key[0] == '~' then "~" + Shifted((behind + "~0")[1..], key[1..])
    else if key[0] == '/' then
      var bytes := behind + "~1";
      [bytes[0]] + Shifted("/" + bytes[2..], key[1..])
    else
      var bytes := behind + [key[0]];
      [bytes[0]] + Shifted(bytes[1..], key[1..])
  }

  lemma TildeBytes(buf: string, s: nat, d: nat)
    requires d <= s && s + 1 < |buf| && buf[s] == '~' && buf[s + 1] == '0'
    ensures var next := buf[d := '~'];
            && next[..d + 1] == buf[..d] + "~" && next[s + 2..] == buf[s + 2..]
            && next[d + 1..s + 2] == (buf[d..s] + "~0")[1..]
  {
    assert buf[d..s + 2] == buf[d..s] + "~0";
    assert buf[d := '~'][d + 1..s + 2] == buf[d..s + 2][1..];
  }

  lemma SlashBytes(buf: string, s: nat, d: nat)
    requires d <= s && s + 1 < |buf| && buf[s] == '~' && buf[s + 1] == '1'
    ensures var next, bytes := buf[d + 1 := '/'], buf[d..s] + "~1";
            && next[..d + 1] == buf[..d] + [bytes[0]] && next[s + 2..] == buf[s + 2..]
            && next[d + 1..s + 2] == "/" + bytes[2..]
  {
    assert buf[d..s + 2] == buf[d..s] + "~1";
    assert buf[d + 1 := '/'][d + 1..s + 2][1..] == buf[d..s + 2][2..];
  }

  lemma PlainBytes(buf: string, s: nat, d: nat)
    requires d <= s < |buf|
    ensures var bytes := buf[d..s] + [buf[s]];
            buf[..d + 1] == buf[..d] + [bytes[0]] && buf[d + 1..s + 1] == bytes[1..]
  {
    assert buf[d..s + 1] == buf[d..s] + [buf[s]];
  }

  lemma DecodeStep(buf: string, s: nat, d: nat)
    requires d <= s <= |buf|
    ensures s == |buf| ==> DecodeFrom(buf, s, d) == buf[..d]
    ensures s + 1 < |buf| && buf[s] == '~' && buf[s + 1] == '0' ==>
              DecodeFrom(buf, s, d) == DecodeFrom(buf[d := '~'], s + 2, d + 1)
    ensures s + 1 < |buf| && buf[s] == '~' && buf[s + 1] == '1' ==>
              DecodeFrom(buf, s, d) == DecodeFrom(buf[d + 1 := '/'], s + 2, d + 1)
    ensures s < |buf| && buf[s] != '~' ==> DecodeFrom(buf, s, d) == DecodeFrom(buf, s + 1, d + 1)
  {
  }

  lemma ShiftedStep(behind: string, key: string)
    ensures key == "" ==> Shifted(behind, key) == ""
    ensures key != "" && key[0] == '~' ==> Shifted(behind, key) == "~" + Shifted((behind + "~0")[1..], key[1..])
    ensures key != "" && key[0] == '/' ==>
              Shifted(behind, key) == [(behind + "~1")[0]] + Shifted("/" + (behind + "~1")[2..], key[1..])
    ensures key != "" && key[0] != '~' && key[0] != '/' ==>
              Shifted(behind, key) == [(behind + [key[0]])[0]] + Shifted((behind + [key[0]])[1..], key[1..])
  {
  }

  lemma {:induction false} DecodeShifts(buf: string, s: nat, d: nat, rest: string)
    requires d <= s <= |buf| && buf[s..] == Encode(rest)
    ensures DecodeFrom(buf, s, d) == buf[..d] + Shifted(buf[d..s], rest)
    decreases |rest|
  {
    hide Encode, DecodeFrom, Shifted;
    var behind := buf[d..s];
    DecodeStep(buf, s, d);
    ShiftedStep(behind, rest);
    if rest == [] {
      EncodeNothing();
      assert buf[s..] == [];
    } else {
      EncodedHead(buf, s, rest);
      var key := rest[1..];
      if rest[0] == '~' {
        TildeBytes(buf, s, d);
        DecodeShifts(buf[d := '~'], s + 2, d + 1, key);
        Regrouped(buf[..d], "~", Shifted((behind + "~0")[1..], key));
      } else if rest[0] == '/' {
        SlashBytes(buf, s, d);
        DecodeShifts(buf[d + 1 := '/'], s + 2, d + 1, key);
        Regrouped(buf[..d], [(behind + "~1")[0]], Shifted("/" + (behind + "~1")[2..], key));
      } else {
        PlainBytes(buf, s, d);
        DecodeShifts(buf, s + 1, d + 1, key);
        Regrouped(buf[..d], [(behind + [rest[0]])[0]], Shifted((behind + [rest[0]])[1..], key));
      }
    }
  }

  lemma Regrouped(a: string, b: string, c: string)
    ensures (a + b) + c == a + (b + c)
  {
  }

  lemma StoredShifts(key: string)
    ensures Stored(key) == Shifted("", key)
  {
    var buf := Encode(key);
    assert buf[0..] == buf && buf[..0] == "" && buf[0..0] == "";
    DecodeShifts(buf, 0, 0, key);
  }

  // ----- ignoring case -----

  lemma FoldAppend(a: string, b: string)
    ensures Fold(a + b) == Fold(a) + Fold(b)
  {
  }

  lemma {:induction false} ShiftedFolds(behind: string, key: string)
    ensures Shifted(Fold(behind), Fold(key)) == Fold(Shifted(behind, key))
    decreases |key|
  {
    if key == "" {
    } else {
      var c := Fold(key)[0];
      assert Fold(key)[1..] == Fold(key[1..]);
      if key[0] == '~' {
        FoldAppend(behind, "~0");
        assert Fold("~0") == "~0" && Fold("~") == "~";
        var next := (behind + "~0")[1..];
        assert Fold(next) == (Fold(behind) + "~0")[1..];
        ShiftedFolds(next, key[1..]);
        FoldAppend("~", Shifted(next, key[1..]));
      } else if key[0] == '/' {
        var bytes := behind + "~1";
        FoldAppend(behind, "~1");
        assert Fold("~1") == "~1";
        var next := "/" + bytes[2..];
        FoldAppend("/", bytes[2..]);
        assert Fold("/") == "/" && Fold(bytes[2..]) == Fold(bytes)[2..];
        ShiftedFolds(next, key[1..]);
        FoldAppend([bytes[0]], Shifted(next, key[1..]));
        assert Fold([bytes[0]]) == [Fold(bytes)[0]];
      } else {
        var bytes := behind + [key[0]];
        FoldAppend(behind, [key[0]]);
        assert Fold([key[0]]) == [c];
        assert Fold(bytes[1..]) == Fold(bytes)[1..];
        ShiftedFolds(bytes[1..], key[1..]);
        FoldAppend([bytes[0]], Shifted(bytes[1..], key[1..]));
        assert Fold([bytes[0]]) == [Fold(bytes)[0]];
      }
    }
  }

  lemma StoredFolds(key: string)
    ensures Stored(Fold(key)) == Fold(Stored(key))
  {
    StoredShifts(key);
    StoredShifts(Fold(key));
    ShiftedFolds("", key);
    assert Fold("") == "";
  }

  predicate NoLetters(s: string) {
    forall i :: 0 <= i < |s| ==> !('A' <= s[i] <= 'Z') && !('a' <= s[i] <= 'z')
  }

  /** A key that comes out the same but for case comes out the same. */
  lemma {:induction false} ShiftedSameFolded(behind: string, key: string)
    requires NoLetters(behind) && Fold(Shifted(behind, key)) == Fold(key)
    ensures Shifted(behind, key) == key
    decreases |key|
  {
    if key == "" {
    } else {
      var r := Shifted(behind, key);
      assert ToLower(r[0]) == Fold(r)[0] == Fold(key)[0] == ToLower(key[0]);
      assert Fold(r)[1..] == Fold(r[1..]) && Fold(key)[1..] == Fold(key[1..]);
      if key[0] == '~' {
        ShiftedSameFolded((behind + "~0")[1..], key[1..]);
      } else if key[0] == '/' {
        ShiftedSameFolded("/" + (behind + "~1")[2..], key[1..]);
      } else {
        ShiftedSameFolded((behind + [key[0]])[1..], key[1..]);
      }
    }
  }

  /** A key survives the decoder exactly when it does ignoring case. */
  lemma DecodableFolded(key: string)
    ensures Decodable(key) <==> Stored(key) == key
    ensures Stored(key) == key <==> Fold(Stored(key)) == Fold(key)
  {
    DecodeInPlaceExact(key);
    StoredShifts(key);
    if Fold(Stored(key)) == Fold(key) {
      ShiftedSameFolded("", key);
    }
  }

  // ----- no cycles -----

  /** The first place at which two strings of one length differ. */
  function FirstDifference(a: string, b: string): (i: nat)
    requires |a| == |b|
    ensures i <= |a| && a[..i] == b[..i] && (i == |a| <==> a == b)
    ensures i < |a| ==> a[i] != b[i]
  {
    if a == "" || a[0] != b[0] then 0
    else
      assert a == [a[0]] + a[1..] && b == [b[0]] + b[1..];
      1 + FirstDifference(a[1..], b[1..])
  }

  /** Where a key comes out changed, decoding it once more leaves that byte as it came out. */
  lemma {:induction false} Settles(behind: string, key: string)
    requires Shifted(behind, key) != key
    ensures var once := Shifted(behind, key);
            FirstDifference(key, once) < FirstDifference(once, Shifted(behind, once))
    decreases |key|
  {
    var once := Shifted(behind, key);
    var twice := Shifted(behind, once);
    if once[0] == key[0] {
      var next := if key[0] == '~' then (behind + "~0")[1..]
                  else if key[0] == '/' then "/" + (behind + "~1")[2..]
                  else (behind + [key[0]])[1..];
      assert once[1..] == Shifted(next, key[1..]) && twice[1..] == Shifted(next, once[1..]);
      assert key == [key[0]] + key[1..] && once == [key[0]] + once[1..];
      Settles(next, key[1..]);
    } else {
      assert twice[0] == once[0];
    }
  }

  /** How far a key stays as it is; less than its length unless it survives the decoder. */
  function Rank(key: string): (i: nat)
    ensures i <= |key|
  {
    StoredShifts(key);
    FirstDifference(key, Stored(key))
  }

  /** Storing a key that does not survive raises its rank, so no keys go round in a circle. */
  lemma RankRises(key: string)
    requires Stored(key) != key
    ensures Rank(key) < Rank(Stored(key))
  {
    StoredShifts(key);
    StoredShifts(Stored(key));
    Settles("", key);
  }

  /** Among some keys with one that does not survive, there is one that does not and that none is stored as. */
  lemma {:induction false} NobodysImage(keys: seq<string>, key: string) returns (lone: string)
    requires key in keys && !Decodable(key)
    ensures lone in keys && !Decodable(lone)
    ensures forall k :: k in keys ==> Fold(Stored(k)) != Fold(lone)
    decreases Rank(Fold(key))
  {
    hide Decodable, Stored, Rank, Fold;
    if k :| k in keys && Fold(Stored(k)) == Fold(key) {
      StoredFolds(k);
      StoredFolds(key);
      DecodableFolded(k);
      DecodableFolded(key);
      if Fold(k) == Fold(key) {
        assert false;
      }
      RankRises(Fold(k));
      lone := NobodysImage(keys, k);
    } else {
      lone := key;
    }
  }
}
