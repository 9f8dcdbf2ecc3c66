/** A policy chain is kept as comma-separated text, and a middlebox is exchanged in it by text replacement. */
module ChainText {

  // s.split(",")
  function Split(s: string): (names: seq<string>)
    ensures names != []
  {
    if s == "" then [""]
    else
      var rest := Split(s[1..]);
      if s[0] == ',' then [""] + rest else [[s[0]] + rest[0]] + rest[1..]
  }

  // string.replace(s, old, new): leftmost occurrences, none overlapping.
  function ReplaceAll(s: string, old_: string, new_: string): string
    requires old_ != ""
    decreases |s|
  {
    if s == "" then ""
    else if old_ <= s then new_ + ReplaceAll(s[|old_|..], old_, new_)
    else [s[0]] + ReplaceAll(s[1..], old_, new_)
  }

  predicate Contains(s: string, part: string)
    decreases |s|
  {
    part <= s || (s != "" && Contains(s[1..], part))
  }

  predicate NoComma(s: string) { forall i :: 0 <= i < |s| ==> s[i] != ',' }

  function ReplaceEach(names: seq<string>, old_: string, new_: string): (r: seq<string>)
    requires old_ != ""
    ensures |r| == |names| && forall i :: 0 <= i < |names| ==> r[i] == ReplaceAll(names[i], old_, new_)
  {
    seq(|names|, i requires 0 <= i < |names| => ReplaceAll(names[i], old_, new_))
  }

  // The chain with one middlebox exchanged for another.
  function Substituted(names: seq<string>, old_: string, new_: string): (r: seq<string>)
    ensures |r| == |names| && forall i :: 0 <= i < |names| ==> r[i] == if names[i] == old_ then new_ else names[i]
  {
    seq(|names|, i requires 0 <= i < |names| => if names[i] == old_ then new_ else names[i])
  }

  lemma {:induction false} SplitPrefix(part: string, s: string)
    requires NoComma(part)
    ensures Split(part + s) == [part + Split(s)[0]] + Split(s)[1..]
  {
    if part == "" {
      assert part + s == s;
      assert "" + Split(s)[0] == Split(s)[0];
    } else {
      assert (part + s)[1..] == part[1..] + s;
      SplitPrefix(part[1..], s);
      assert [part[0]] + (part[1..] + Split(s)[0]) == part + Split(s)[0];
    }
  }

  lemma SplitStarts(s: string, part: string)
    requires NoComma(part) && part != ""
    ensures part <= Split(s)[0] <==> part <= s
    ensures part <= s ==> Split(s[|part|..]) == [Split(s)[0][|part|..]] + Split(s)[1..]
  {
    HeadIsPrefix(s);
    if part <= s {
      assert s == part + s[|part|..];
      SplitPrefix(part, s[|part|..]);
    }
  }

  // The first name is what stands before the first comma.
  lemma {:induction false} HeadIsPrefix(s: string)
    ensures Split(s)[0] <= s && NoComma(Split(s)[0])
  {
    if s != "" {
      HeadIsPrefix(s[1..]);
    }
  }

  /** Replacing in the text is replacing in each name separately. */
  lemma {:induction false} ReplaceDistributes(s: string, old_: string, new_: string)
    requires old_ != "" && NoComma(old_) && NoComma(new_)
    ensures Split(ReplaceAll(s, old_, new_)) == ReplaceEach(Split(s), old_, new_)
    decreases |s|
  {
    if s != "" {
      SplitStarts(s, old_);
      if old_ <= s {
        ReplaceDistributes(s[|old_|..], old_, new_);
        SplitPrefix(new_, ReplaceAll(s[|old_|..], old_, new_));
      } else {
        ReplaceDistributes(s[1..], old_, new_);
        ReplaceStep(s, old_, new_);
      }
    }
  }

  lemma ReplaceStep(s: string, old_: string, new_: string)
    requires old_ != "" && s != "" && !(old_ <= s) && !(old_ <= Split(s)[0])
    requires Split(ReplaceAll(s[1..], old_, new_)) == ReplaceEach(Split(s[1..]), old_, new_)
    ensures Split(ReplaceAll(s, old_, new_)) == ReplaceEach(Split(s), old_, new_)
  {
    var r := ReplaceAll(s[1..], old_, new_);
    assert ([s[0]] + r)[1..] == r;
    if s[0] != ',' {
      assert Split(s)[0][1..] == Split(s[1..])[0];
      assert ReplaceAll(Split(s)[0], old_, new_) == [s[0]] + ReplaceAll(Split(s[1..])[0], old_, new_);
    }
  }

  lemma {:induction false} ReplaceGrows(s: string, old_: string, new_: string)
    requires old_ != ""
    ensures |new_| >= |old_| ==> |ReplaceAll(s, old_, new_)| >= |s|
    ensures |new_| <= |old_| ==> |ReplaceAll(s, old_, new_)| <= |s|
    decreases |s|
  {
    if s != "" {
      if old_ <= s {
        ReplaceGrows(s[|old_|..], old_, new_);
      } else {
        ReplaceGrows(s[1..], old_, new_);
      }
    }
  }

  lemma {:induction false} ReplaceKeepsIff(s: string, old_: string, new_: string)
    requires old_ != "" && old_ != new_
    ensures ReplaceAll(s, old_, new_) == s <==> !Contains(s, old_)
    decreases |s|
  {
    if s != "" {
      if old_ <= s {
        var rest := s[|old_|..];
        ReplaceGrows(rest, old_, new_);
        var r := ReplaceAll(rest, old_, new_);
        assert (new_ + r)[..|new_|] == new_ && s[..|old_|] == old_;
      } else {
        ReplaceKeepsIff(s[1..], old_, new_);
        var r := ReplaceAll(s[1..], old_, new_);
        assert ([s[0]] + r)[1..] == r;
        assert s == [s[0]] + s[1..];
      }
    }
  }

  lemma ReplaceWhole(old_: string, new_: string)
    requires old_ != ""
    ensures ReplaceAll(old_, old_, new_) == new_
  {
    assert old_[|old_|..] == "";
  }

  /** The text replacement exchanges the middlebox, and nothing else, exactly when no other name of the chain contains
      the old name. */
  lemma ReplaceSubstitutesIff(s: string, old_: string, new_: string)
    requires old_ != "" && old_ != new_ && NoComma(old_) && NoComma(new_)
    ensures Split(ReplaceAll(s, old_, new_)) == Substituted(Split(s), old_, new_)
            <==> forall i :: 0 <= i < |Split(s)| ==> Split(s)[i] == old_ || !Contains(Split(s)[i], old_)
  {
    ReplaceDistributes(s, old_, new_);
    ReplaceWhole(old_, new_);
    var names := Split(s);
    forall i | 0 <= i < |names|
      ensures ReplaceEach(names, old_, new_)[i] == Substituted(names, old_, new_)[i]
              <==> names[i] == old_ || !Contains(names[i], old_)
    {
      ReplaceKeepsIff(names[i], old_, new_);
    }
  }

  // Middlebox m1 is part of the name m10: exchanging m1 for m7 in "m1,m10" also renames m10.
  lemma PrefixNamesAreCaught()
    ensures Split(ReplaceAll("m1,m10", "m1", "m7")) != Substituted(Split("m1,m10"), "m1", "m7")
  {
    var s := "m1,m10";
    ReplaceSubstitutesIff(s, "m1", "m7");
    assert s == "m1" + ",m10" && ",m10"[1..] == "m10" && "m10" == "m10" + "";
    SplitPrefix("m1", ",m10");
    SplitPrefix("m10", "");
    assert Split(s)[1] == "m10" && Contains("m10", "m1");
  }

  // ---- the replacement piece by piece

  function JoinWith(parts: seq<string>, sep: string): string
    requires parts != []
  {
    if |parts| == 1 then parts[0] else parts[0] + sep + JoinWith(parts[1..], sep)
  }

  // The text does not occur in s at a position before k.
  predicate NotBefore(s: string, old_: string, k: nat)
    requires k <= |s|
  {
    forall j :: 0 <= j < k ==> !(old_ <= s[j..])
  }

  // The pieces between the occurrences, each of which is the first one behind the one before.
  predicate CutAt(parts: seq<string>, old_: string) {
    && parts != []
    && (forall i :: 0 <= i < |parts| - 1 ==> NotBefore(parts[i] + old_, old_, |parts[i]|))
    && NotBefore(parts[|parts| - 1], old_, |parts[|parts| - 1]|)
  }

  lemma JoinCons(part: string, parts: seq<string>, sep: string)
    requires parts != []
    ensures JoinWith([part] + parts, sep) == part + sep + JoinWith(parts, sep)
    ensures part == "" ==> JoinWith([part] + parts, sep) == sep + JoinWith(parts, sep)
  {
    assert ([part] + parts)[1..] == parts;
  }

  lemma JoinLonger(c: char, parts: seq<string>, sep: string)
    requires parts != []
    ensures JoinWith([[c] + parts[0]] + parts[1..], sep) == [c] + JoinWith(parts, sep)
  {
    var longer := [[c] + parts[0]] + parts[1..];
    assert longer[1..] == parts[1..];
  }

  lemma NotBeforeLonger(c: char, s: string, old_: string, k: nat)
    requires k <= |s| && NotBefore(s, old_, k) && !(old_ <= [c] + s)
    ensures NotBefore([c] + s, old_, k + 1)
  {
    forall j | 0 <= j < k + 1 ensures !(old_ <= ([c] + s)[j..]) {
      if j > 0 {
        assert ([c] + s)[j..] == s[j - 1..];
      } else {
        assert ([c] + s)[0..] == [c] + s;
      }
    }
  }

  lemma PrefixOfLonger(old_: string, a: string, b: string)
    requires |old_| <= |a| && !(old_ <= a + b)
    ensures !(old_ <= a)
  {
  }

  /** The text is cut at the leftmost occurrences, none overlapping another, and joined again with the new text. */
  lemma {:induction false} ReplacePieces(s: string, old_: string, new_: string) returns (parts: seq<string>)
    requires old_ != ""
    ensures CutAt(parts, old_) && JoinWith(parts, old_) == s && JoinWith(parts, new_) == ReplaceAll(s, old_, new_)
    decreases |s|
  {
    hide *;
    ReplaceCases(s, old_, new_);
    OnePiece(old_, new_);
    if s == "" {
      parts := [""];
    } else if old_ <= s {
      assert s == old_ + s[|old_|..];
      var rest := ReplacePieces(s[|old_|..], old_, new_);
      CutNonempty(rest, old_);
      parts := [""] + rest;
      JoinCons("", rest, old_);
      JoinCons("", rest, new_);
      CutEmpty(rest, old_);
    } else {
      assert s == [s[0]] + s[1..];
      var rest := ReplacePieces(s[1..], old_, new_);
      CutNonempty(rest, old_);
      parts := [[s[0]] + rest[0]] + rest[1..];
      JoinLonger(s[0], rest, old_);
      JoinLonger(s[0], rest, new_);
      CutLonger(s, rest, old_);
    }
  }

  lemma ReplaceCases(s: string, old_: string, new_: string)
    requires old_ != ""
    ensures ReplaceAll(s, old_, new_)
         == if s == "" then "" else if old_ <= s then new_ + ReplaceAll(s[|old_|..], old_, new_)
            else [s[0]] + ReplaceAll(s[1..], old_, new_)
  {
  }

  lemma OnePiece(old_: string, new_: string)
    ensures CutAt([""], old_) && JoinWith([""], old_) == "" && JoinWith([""], new_) == ""
  {
  }

  lemma CutNonempty(parts: seq<string>, old_: string)
    requires CutAt(parts, old_)
    ensures parts != []
  {
  }

  lemma CutEmpty(rest: seq<string>, old_: string)
    requires CutAt(rest, old_)
    ensures CutAt([""] + rest, old_)
  {
    var parts := [""] + rest;
    forall i | 0 <= i < |parts| - 1 ensures NotBefore(parts[i] + old_, old_, |parts[i]|) {
      if i > 0 {
        assert parts[i] == rest[i - 1];
      }
    }
    assert parts[|parts| - 1] == rest[|rest| - 1];
  }

  lemma CutLonger(s: string, rest: seq<string>, old_: string)
    requires CutAt(rest, old_) && s != "" && !(old_ <= s) && s == [s[0]] + JoinWith(rest, old_) && old_ != ""
    ensures CutAt([[s[0]] + rest[0]] + rest[1..], old_)
  {
    var parts := [[s[0]] + rest[0]] + rest[1..];
    if |rest| == 1 {
      assert s == [s[0]] + rest[0];
      NotBeforeLonger(s[0], rest[0], old_, |rest[0]|);
    } else {
      var first := rest[0] + old_;
      assert s == [s[0]] + first + JoinWith(rest[1..], old_);
      PrefixOfLonger(old_, [s[0]] + first, JoinWith(rest[1..], old_));
      NotBeforeLonger(s[0], first, old_, |rest[0]|);
      assert parts[0] + old_ == [s[0]] + first;
    }
    forall i | 0 <= i < |parts| - 1 ensures NotBefore(parts[i] + old_, old_, |parts[i]|) {
      if i > 0 {
        assert parts[i] == rest[i];
      }
    }
    assert |rest| > 1 ==> parts[|parts| - 1] == rest[|rest| - 1];
  }

  /** The names of a chain's text, put together again, are the text, and none of them holds a comma. */
  lemma {:induction false} SplitJoins(s: string)
    ensures JoinWith(Split(s), ",") == s && forall i :: 0 <= i < |Split(s)| ==> NoComma(Split(s)[i])
  {
    if s != "" {
      var rest := Split(s[1..]);
      SplitJoins(s[1..]);
      assert s == [s[0]] + s[1..];
      if s[0] == ',' {
        JoinCons("", rest, ",");
      } else {
        JoinLonger(s[0], rest, ",");
      }
      hide JoinWith;
    }
  }
}
