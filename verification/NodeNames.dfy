/** The start-up repair of duplicate node names. */
module NodeNames {
  import opened Collections
  import opened Text

  /** Trimmed names used by the first n rows after repair. */
  function Used(names: seq<string>, n: nat): set<string>
    requires n <= |names|
    decreases n, 0
  {
    if n == 0 then {}
    else
      var base := Trim(names[n - 1]);
      if base == [] then Used(names, n - 1) else Used(names, n - 1) + {Trim(Repaired(names, n - 1))}
  }

  /** The name of row i after repair: unchanged when blank or new, and otherwise the first free numbered name. */
  function Repaired(names: seq<string>, i: nat): string
    requires i < |names|
    decreases i, 1
  {
    var base, used := Trim(names[i]), Used(names, i);
    if base == [] || base !in used then names[i] else Numbered(base, FirstFree(base, used, 2))
  }

  /** The first k, from a given one on, whose numbered name is not in use. */
  function FirstFree(base: string, used: set<string>, k: nat): (r: nat)
    requires 2 <= k && forall j :: 2 <= j < k ==> Numbered(base, j) in used
    ensures r >= k && Numbered(base, r) !in used
    ensures forall j :: 2 <= j < r ==> Numbered(base, j) in used
    decreases |used| + 2 - k
  {
    TriedAreUsed(base, used, k);
    if Numbered(base, k) in used then
      TriedAreUsed(base, used, k + 1);
      FirstFree(base, used, k + 1)
    else k
  }

  function Tried(base: string, k: nat): set<string>
  {
    set j | 2 <= j < k :: Numbered(base, j)
  }

  lemma {:induction false} TriedSize(base: string, k: nat)
    requires k >= 2
    ensures |Tried(base, k)| == k - 2
  {
    if k > 2 {
      TriedSize(base, k - 1);
      assert Tried(base, k) == Tried(base, k - 1) + {Numbered(base, k - 1)};
      if Numbered(base, k - 1) in Tried(base, k - 1) {
        var j :| 2 <= j < k - 1 && Numbered(base, j) == Numbered(base, k - 1);
        NumberedInjective(base, j, base, k - 1);
      }
    } else {
      assert Tried(base, k) == {};
    }
  }

  /** Every candidate tried is a different used name, so only finitely many can be tried. */
  lemma TriedAreUsed(base: string, used: set<string>, k: nat)
    requires k >= 2 && forall j :: 2 <= j < k ==> Numbered(base, j) in used
    ensures k - 2 <= |used|
  {
    TriedSize(base, k);
    assert Tried(base, k) <= used;
    SubsetSize(Tried(base, k), used);
  }

  // ----- What the repair achieves -----

  /** A repaired name is new among the names before it, and a blank one stays as it is. */
  lemma RepairedIsNew(names: seq<string>, i: nat)
    requires i < |names|
    ensures Trim(names[i]) == [] ==> Repaired(names, i) == names[i]
    ensures Trim(names[i]) != [] ==> Trim(Repaired(names, i)) != [] && Trim(Repaired(names, i)) !in Used(names, i)
    ensures Repaired(names, i) == names[i] <==> Trim(names[i]) == [] || Trim(names[i]) !in Used(names, i)
  {
    var base, used := Trim(names[i]), Used(names, i);
    if base != [] && base in used {
      TrimIsTrimmed(names[i]);
      NumberedTrimmed(base, FirstFree(base, used, 2));
    }
  }

  lemma {:induction false} UsedMembers(names: seq<string>, n: nat, s: string)
    requires n <= |names|
    ensures s in Used(names, n) <==> exists j :: 0 <= j < n && Trim(names[j]) != [] && Trim(Repaired(names, j)) == s
  {
    hide Repaired, Trim;
    if n > 0 {
      UsedMembers(names, n - 1, s);
    }
  }

  /** After the repair no two non-blank names are the same once trimmed. */
  lemma NamesAreDistinct(names: seq<string>, i: nat, j: nat)
    requires i < j < |names| && Trim(names[i]) != [] && Trim(names[j]) != []
    ensures Trim(Repaired(names, i)) != Trim(Repaired(names, j))
  {
    UsedMembers(names, j, Trim(Repaired(names, i)));
    RepairedIsNew(names, j);
  }

  // ----- Which rows keep their name -----

  /** Row i is the first to hold its trimmed name. */
  predicate FirstHolder(names: seq<string>, i: nat)
    requires i < |names|
  {
    Trim(names[i]) != [] && forall j :: 0 <= j < i ==> Trim(names[j]) != Trim(names[i])
  }

  /** Not every first holder keeps its name: a name made up for an earlier duplicate may be the one it holds. */
  lemma FirstHolderRenamed()
    ensures var names := ["A", "A", "A (2)"];
            FirstHolder(names, 2) && Repaired(names, 2) != names[2]
  {
    var names := ["A", "A", "A (2)"];
    var two := names[2];
    assert Trim("A") == "A" && Trim(two) == two;
    assert Numbered("A", 2) == two by { assert Decimal(2) == "2"; }
    assert Used(names, 1) == {"A"};
    assert Repaired(names, 1) == two;
    assert two in Used(names, 2);
    RepairedIsNew(names, 2);
  }

  /** How many of the first n rows hold a trimmed name. */
  function Holders(names: seq<string>, n: nat, b: string): nat
    requires n <= |names|
  {
    if n == 0 then 0 else Holders(names, n - 1, b) + if Trim(names[n - 1]) == b then 1 else 0
  }

  /** How many of the numbered names "b (2)" to "b (k)" none of the first n rows holds. */
  function Free(names: seq<string>, n: nat, b: string, k: nat): nat
    requires n <= |names|
  {
    if k < 2 then 0
    else Free(names, n, b, k - 1) + if Holders(names, n, Numbered(b, k)) == 0 then 1 else 0
  }

  /** The first holders among the first n rows all keep their names. */
  ghost predicate FirstsKeep(names: seq<string>, n: nat)
    requires n <= |names|
  {
    forall i :: 0 <= i < n && FirstHolder(names, i) ==> Repaired(names, i) == names[i]
  }

  /** Whenever one of the first n rows is the first to hold a numbered name, the rows before it that hold the base are
      at most as many as the numbers up to its own that are still free. */
  ghost predicate EnoughNumbers(names: seq<string>, n: nat)
    requires n <= |names|
  {
    forall i, b, k :: 0 <= i < n && FirstHolder(names, i) ==> Room(names, i, b, k)
  }

  predicate Room(names: seq<string>, i: nat, b: string, k: nat)
    requires i < |names|
  {
    b != [] && k >= 2 && Trim(names[i]) == Numbered(b, k) ==> Holders(names, i, b) <= Free(names, i, b, k)
  }

  lemma {:induction false} HoldersFacts(names: seq<string>, n: nat, b: string)
    requires n <= |names|
    ensures Holders(names, n, b) > 0 <==> exists j :: 0 <= j < n && Trim(names[j]) == b
  {
    hide Trim;
    if n > 0 {
      HoldersFacts(names, n - 1, b);
    }
  }

  /** A name held by an earlier row is in use. */
  lemma {:induction false} HeldIsUsed(names: seq<string>, n: nat, b: string)
    requires n <= |names| && b != [] && Holders(names, n, b) > 0
    ensures b in Used(names, n)
  {
    if Trim(names[n - 1]) == b {
      RepairedIsNew(names, n - 1);
    } else {
      HeldIsUsed(names, n - 1, b);
    }
  }

  lemma HeldTrimmed(names: seq<string>, r: nat, x: nat)
    requires r < |names| && Trim(names[r]) != []
    ensures Trim(Numbered(Trim(names[r]), x)) == Numbered(Trim(names[r]), x)
  {
    TrimIsTrimmed(names[r]);
    NumberedTrimmed(Trim(names[r]), x);
  }

  lemma {:induction false} FreeGrows(names: seq<string>, n: nat, b: string, j: nat, k: nat)
    requires n <= |names| && j <= k
    ensures Free(names, n, b, j) <= Free(names, n, b, k)
    ensures j < k && k >= 2 && Holders(names, n, Numbered(b, k)) == 0 ==> Free(names, n, b, j) < Free(names, n, b, k)
  {
    hide Holders, Numbered;
    if j < k {
      FreeGrows(names, n, b, j, k - 1);
    }
  }

  /** What one more row takes from the free numbers. */
  lemma {:induction false} FreeStep(names: seq<string>, r: nat, b: string, k: nat, x: nat)
    requires r < |names|
    requires Trim(names[r]) == Numbered(b, x) || forall y: nat :: Trim(names[r]) != Numbered(b, y)
    ensures Free(names, r + 1, b, k) == Free(names, r, b, k) -
              if 2 <= x <= k && Trim(names[r]) == Numbered(b, x) && Holders(names, r, Numbered(b, x)) == 0 then 1 else 0
  {
    hide Trim, Numbered;
    if k >= 2 {
      FreeStep(names, r, b, k - 1, x);
      if Trim(names[r]) == Numbered(b, k) {
        NumberedInjective(b, k, b, x);
      }
    }
  }

  /** If every free number up to k is in use, there are fewer of them than holders of the base. */
  lemma {:induction false} AllTaken(names: seq<string>, r: nat, b: string, k: nat)
    requires r <= |names| && Holders(names, r, b) > 0
    requires forall x :: 2 <= x <= k && Holders(names, r, Numbered(b, x)) == 0 ==>
               Holders(names, r, b) > Free(names, r, b, x)
    ensures Holders(names, r, b) > Free(names, r, b, k)
  {
    hide Holders, Numbered;
    if k >= 2 {
      AllTaken(names, r, b, k - 1);
    }
  }

  /** Number k of b, if no row holds it, is in use exactly when the holders of b so far needed it. */
  predicate Taken(names: seq<string>, n: nat, b: string, k: nat)
    requires n <= |names|
  {
    k >= 2 && Holders(names, n, Numbered(b, k)) == 0 ==>
      (Numbered(b, k) in Used(names, n) <==> Holders(names, n, b) > Free(names, n, b, k))
  }

  /** The number a duplicate of b is given: it makes the holders of b as many as the free numbers up to it. */
  lemma LowestFree(names: seq<string>, r: nat, b: string)
    requires r < |names| && b != [] && Holders(names, r, b) > 0
    requires forall x: nat :: Taken(names, r, b, x)
    ensures var f := FirstFree(b, Used(names, r), 2);
            Holders(names, r, Numbered(b, f)) == 0 && Free(names, r, b, f) == Holders(names, r, b)
  {
    hide Trim, Numbered, Used, Holders;
    var used := Used(names, r);
    var f := FirstFree(b, used, 2);
    if Holders(names, r, Numbered(b, f)) > 0 {
      NumberedNotEmpty(b, f);
      HeldIsUsed(names, r, Numbered(b, f));
    }
    assert Taken(names, r, b, f);
    forall x | 2 <= x <= f - 1 && Holders(names, r, Numbered(b, x)) == 0
      ensures Holders(names, r, b) > Free(names, r, b, x)
    {
      assert Taken(names, r, b, x);
    }
    AllTaken(names, r, b, f - 1);
  }

  lemma NumberedNotEmpty(b: string, k: nat)
    ensures Numbered(b, k) != [] && Numbered(b, k) != b
  {
    hide Numbered;
  }

  /** A row that holds the base itself. */
  lemma BaseRow(names: seq<string>, r: nat, b: string, k: nat)
    requires r < |names| && b != [] && Trim(names[r]) == b
    requires FirstHolder(names, r) ==> b !in Used(names, r)
    requires forall x: nat :: Taken(names, r, b, x)
    ensures Taken(names, r + 1, b, k)
  {
    hide Trim, Numbered, Used, Repaired, FirstFree;
    if k < 2 || Holders(names, r + 1, Numbered(b, k)) > 0 { return; }
    RowFacts(names, r);
    NoNumberedForm(b);
    FreeStep(names, r, b, k, 0);
    NumberedNotEmpty(b, k);
    FreeGrows(names, r, b, k - 1, k);
    assert Taken(names, r, b, k);
    if b !in Used(names, r) {
      if Holders(names, r, b) > 0 { HeldIsUsed(names, r, b); }
    } else {
      HoldersFacts(names, r, b);
      var f := FirstFree(b, Used(names, r), 2);
      LowestFree(names, r, b);
      if k < f { assert Numbered(b, k) in Used(names, r); }
      if k > f { FreeGrows(names, r, b, f, k); }
      if k != f && Numbered(b, k) == Numbered(b, f) { NumberedInjective(b, k, b, f); }
    }
  }

  lemma NoNumberedForm(b: string)
    ensures forall y: nat :: b != Numbered(b, y)
  {
    hide Numbered;
    forall y: nat ensures b != Numbered(b, y) { NumberedNotEmpty(b, y); }
  }

  /** A row that holds number x of the base. */
  lemma NumberedRow(names: seq<string>, r: nat, b: string, x: nat, k: nat)
    requires r < |names| && b != [] && Trim(names[r]) == Numbered(b, x)
    requires FirstHolder(names, r) ==> Numbered(b, x) !in Used(names, r)
    requires forall y: nat :: Taken(names, r, b, y)
    ensures Taken(names, r + 1, b, k)
  {
    hide Trim, Numbered, Used, Repaired, FirstFree;
    if k < 2 || Holders(names, r + 1, Numbered(b, k)) > 0 { return; }
    NumberedNotEmpty(b, x);
    assert Taken(names, r, b, k) && Taken(names, r, b, x);
    FreeStep(names, r, b, k, x);
    UsedStep(names, r, b, k);
    if 2 <= x <= k && Holders(names, r, Numbered(b, x)) == 0 {
      HoldersFacts(names, r, Numbered(b, x));
      FreeGrows(names, r, b, x, k);
    }
  }

  /** Any other row. */
  lemma OtherRow(names: seq<string>, r: nat, b: string, k: nat)
    requires r < |names| && b != [] && Trim(names[r]) != b && forall y: nat :: Trim(names[r]) != Numbered(b, y)
    requires Taken(names, r, b, k)
    ensures Taken(names, r + 1, b, k)
  {
    hide Trim, Numbered, Used, Repaired, FirstFree;
    FreeStep(names, r, b, k, 0);
    if k >= 2 { UsedStep(names, r, b, k); }
  }

  /** Only a row that holds b or number k of b puts that number in use. */
  lemma UsedStep(names: seq<string>, r: nat, b: string, k: nat)
    requires r < |names| && b != [] && Trim(names[r]) != b && Trim(names[r]) != Numbered(b, k)
    ensures Numbered(b, k) in Used(names, r + 1) <==> Numbered(b, k) in Used(names, r)
  {
    hide Trim, Numbered, Used, Repaired, FirstFree;
    RowFacts(names, r);
    var c, f := Trim(names[r]), FirstFree(Trim(names[r]), Used(names, r), 2);
    if Numbered(c, f) == Numbered(b, k) { NumberedInjective(c, f, b, k); }
  }

  /** While first holders keep their names, the duplicates of b have been given the lowest numbers that no row holds,
      one for each holder of b after the first. */
  lemma {:induction false} MadeUp(names: seq<string>, n: nat, b: string)
    requires n <= |names| && b != [] && FirstsKeep(names, n)
    ensures forall k: nat :: Taken(names, n, b, k)
  {
    hide Trim, Numbered, Taken, Used, Repaired, FirstHolder;
    if n == 0 {
      forall k: nat ensures Taken(names, 0, b, k) { NoneTaken(names, b, k); }
    } else {
      var r := n - 1;
      MadeUp(names, r, b);
      if FirstHolder(names, r) { KeptIsNew(names, r); }
      forall k: nat ensures Taken(names, n, b, k) {
        if Trim(names[r]) == b {
          BaseRow(names, r, b, k);
        } else if x: nat :| Trim(names[r]) == Numbered(b, x) {
          NumberedRow(names, r, b, x, k);
        } else {
          OtherRow(names, r, b, k);
        }
      }
    }
  }

  lemma NoneTaken(names: seq<string>, b: string, k: nat)
    ensures Taken(names, 0, b, k)
  {
    hide Trim, Numbered;
  }

  /** A first holder keeps its name exactly when it finds it unused. */
  lemma KeptIsNew(names: seq<string>, r: nat)
    requires r < |names| && FirstHolder(names, r)
    ensures Repaired(names, r) == names[r] <==> Trim(names[r]) !in Used(names, r)
  {
    hide Trim, Used, Repaired;
    RepairedIsNew(names, r);
  }

  lemma RoomAt(names: seq<string>, r: nat, b: string, k: nat)
    requires r < |names| && FirstsKeep(names, r) && FirstHolder(names, r)
    requires b != [] && k >= 2 && Trim(names[r]) == Numbered(b, k)
    ensures Trim(names[r]) in Used(names, r) <==> !Room(names, r, b, k)
  {
    hide Trim, Numbered, Used, Repaired, FirstsKeep;
    MadeUp(names, r, b);
    HoldersFacts(names, r, Numbered(b, k));
    assert Taken(names, r, b, k);
  }

  /** A name in use that no earlier row holds was made up from an earlier name. */
  lemma MadeFrom(names: seq<string>, r: nat) returns (b: string, k: nat)
    requires r < |names| && FirstHolder(names, r) && Trim(names[r]) in Used(names, r)
    ensures b != [] && k >= 2 && Trim(names[r]) == Numbered(b, k)
  {
    hide Trim, Numbered, Used, FirstFree;
    UsedMembers(names, r, Trim(names[r]));
    var j :| 0 <= j < r && Trim(names[j]) != [] && Trim(Repaired(names, j)) == Trim(names[r]);
    b, k := Trim(names[j]), FirstFree(Trim(names[j]), Used(names, j), 2);
    HeldTrimmed(names, j, k);
  }

  /** When the first holders before a first holder kept their names, it keeps its own exactly when that is not a number
      its base has run out of. */
  lemma NextFirst(names: seq<string>, r: nat)
    requires r < |names| && FirstsKeep(names, r) && FirstHolder(names, r)
    ensures Repaired(names, r) == names[r] <==> forall b, k :: Room(names, r, b, k)
  {
    hide Trim, Numbered, Used, Repaired, FirstsKeep, FirstHolder;
    KeptIsNew(names, r);
    if Trim(names[r]) in Used(names, r) {
      var b, k := MadeFrom(names, r);
      RoomAt(names, r, b, k);
    } else {
      forall b, k: nat | b != [] && k >= 2 && Trim(names[r]) == Numbered(b, k) ensures Room(names, r, b, k) {
        RoomAt(names, r, b, k);
      }
    }
  }

  /** In any list, exactly when does the repair leave every first holder its name? When each of them that holds a
      numbered name comes after at most as many holders of the base as there are free numbers up to its own. */
  lemma {:induction false} FirstsKeepIff(names: seq<string>, n: nat)
    requires n <= |names|
    ensures FirstsKeep(names, n) <==> EnoughNumbers(names, n)
  {
    hide Trim, Numbered, Used, Repaired, FirstHolder, Room;
    if n > 0 {
      FirstsKeepIff(names, n - 1);
      if FirstsKeep(names, n - 1) && FirstHolder(names, n - 1) {
        NextFirst(names, n - 1);
      }
    }
  }

  // ----- Lists where a base comes before its numbered forms -----

  /** No name is a numbered form, within the number of its holders, of another name in the list. */
  ghost predicate NoClash(names: seq<string>)
  {
    forall b: string, k: nat, j :: 0 <= j < |names| && b != [] && 2 <= k <= Holders(names, |names|, b) ==>
      Trim(names[j]) != Numbered(b, k)
  }

  /** Row j holds a numbered form of the name row i holds. */
  predicate NumberedForm(names: seq<string>, i: nat, j: nat, k: nat)
    requires i < |names| && j < |names|
  {
    Trim(names[i]) != [] && Trim(names[j]) == Numbered(Trim(names[i]), k)
  }

  /** All rows holding a name come before all rows holding a numbered form of it. */
  ghost predicate Grouped(names: seq<string>)
  {
    forall i, j, k: nat :: 0 <= i < |names| && 0 <= j < |names| && NumberedForm(names, i, j, k) ==> i < j
  }

  lemma SortedIsGrouped(names: seq<string>)
    requires forall i :: 0 <= i < |names| ==> Trimmed(names[i])
    requires forall i, j :: 0 <= i < j < |names| ==> LexLe(names[i], names[j])
    ensures Grouped(names)
  {
    forall i, j, k: nat | 0 <= i < |names| && 0 <= j < |names| && NumberedForm(names, i, j, k) ensures i < j {
      TrimIsTrimmed(names[i]);
      TrimIsTrimmed(names[j]);
      ExtensionIsGreater(names[i], " (" + Decimal(k) + ")");
      assert names[j] == names[i] + (" (" + Decimal(k) + ")");
    }
  }

  lemma {:induction false} HoldersGrow(names: seq<string>, m: nat, n: nat, b: string)
    requires m <= n <= |names|
    ensures Holders(names, m, b) <= Holders(names, n, b)
    ensures (forall j :: m <= j < n ==> Trim(names[j]) != b) ==> Holders(names, m, b) == Holders(names, n, b)
  {
    hide Trim;
    if m < n {
      HoldersGrow(names, m, n - 1, b);
    }
  }

  lemma {:induction false} AllFree(names: seq<string>, n: nat, b: string, k: nat)
    requires n <= |names|
    ensures Free(names, n, b, k) <= if k < 2 then 0 else k - 1
    ensures k >= 1 && (forall x :: 2 <= x <= k ==> Holders(names, n, Numbered(b, x)) == 0) ==>
              Free(names, n, b, k) == k - 1
  {
    hide Holders, Numbered;
    if k >= 2 {
      AllFree(names, n, b, k - 1);
    }
  }

  /** Without a clash every first holder keeps its name, in whatever order the rows come. */
  lemma NoClashKeeps(names: seq<string>)
    requires NoClash(names)
    ensures FirstsKeep(names, |names|)
  {
    hide Trim, Numbered, FirstsKeep, Holders, Free;
    forall i, b, k: nat |
      0 <= i < |names| && FirstHolder(names, i) && b != [] && k >= 2 && Trim(names[i]) == Numbered(b, k)
      ensures Room(names, i, b, k)
    {
      var held := Holders(names, |names|, b);
      HoldersGrow(names, i, |names|, b);
      if held > 0 {
        forall x | 2 <= x <= held || x == k ensures Holders(names, i, Numbered(b, x)) == 0 {
          HoldersFacts(names, i, Numbered(b, x));
        }
        AllFree(names, i, b, held);
        FreeGrows(names, i, b, held, k);
      }
    }
    FirstsKeepIff(names, |names|);
  }

  lemma {:induction false} FirstHolderOf(names: seq<string>, j: nat) returns (i: nat)
    requires j < |names| && Trim(names[j]) != []
    ensures i <= j && Trim(names[i]) == Trim(names[j]) && FirstHolder(names, i)
  {
    hide Trim;
    if l :| 0 <= l < j && Trim(names[l]) == Trim(names[j]) {
      i := FirstHolderOf(names, l);
    } else {
      i := j;
    }
  }

  /** In such a list the condition is simpler: every first holder keeps its name exactly when there is no clash. */
  lemma FirstsKeepIffNoClash(names: seq<string>)
    requires Grouped(names)
    ensures FirstsKeep(names, |names|) <==> NoClash(names)
  {
    if NoClash(names) {
      NoClashKeeps(names);
    } else {
      hide Trim, Numbered, FirstsKeep, Holders, Free;
      var b: string, k: nat, j :| 0 <= j < |names| && b != [] && 2 <= k <= Holders(names, |names|, b)
        && Trim(names[j]) == Numbered(b, k);
      NumberedNotEmpty(b, k);
      var i := FirstHolderOf(names, j);
      forall l | i <= l < |names| ensures Trim(names[l]) != b {
        assert NumberedForm(names, l, i, k) ==> l < i;
      }
      HoldersGrow(names, i, |names|, b);
      AllFree(names, i, b, k);
      assert !Room(names, i, b, k);
      FirstsKeepIff(names, |names|);
    }
  }

  /** White space that the sorting sees and the trimming removes can spoil the grouping: here a clash does no harm. */
  lemma ClashWithoutLoss()
    ensures var names := [" A (2)", "A", "A"];
            && (forall i, j :: 0 <= i < j < |names| ==> LexLe(names[i], names[j]))
            && !NoClash(names) && FirstsKeep(names, |names|)
  {
    var names := [" A (2)", "A", "A"];
    var two := "A (2)";
    assert Decimal(2) == "2";
    assert Numbered("A", 2) == two;
    assert names[0][1..] == two;
    assert Trim("A") == "A" && Trim(two) == two && Trim(names[0]) == two;
    assert Holders(names, 3, "A") == 2;
    assert Used(names, 1) == {two};
    RepairedIsNew(names, 0);
    RepairedIsNew(names, 1);
  }

  // ----- The migration -----

  datatype Row = Row(id: nat, name: string)

  function NamesOf(rows: seq<Row>): (names: seq<string>)
    ensures |names| == |rows|
  {
    seq(|rows|, i requires 0 <= i < |rows| => rows[i].name)
  }

  class NodeTable {
    /** Names by row id. */
    var names: map<nat, string>

    /** Repairs the table from a snapshot of its rows in some order: every row ends up with its repaired name. */
    method NormalizeDuplicateNodeNames(rows: seq<Row>)
      requires forall i, j :: 0 <= i < j < |rows| ==> rows[i].id != rows[j].id
      requires forall i :: 0 <= i < |rows| ==> rows[i].id in names && names[rows[i].id] == rows[i].name
      modifies this
      ensures names.Keys == old(names).Keys
      ensures forall i :: 0 <= i < |rows| ==> names[rows[i].id] == Repaired(NamesOf(rows), i)
      ensures forall id :: id in names && (forall i :: 0 <= i < |rows| ==> rows[i].id != id) ==>
                names[id] == old(names)[id]
    {
      hide Trim, Numbered, Used, Repaired, FirstFree;
      ghost var all := NamesOf(rows);
      NoneUsed(all);
      var usedNames: set<string> := {};
      for i := 0 to |rows|
        invariant usedNames == Used(all, i) && names.Keys == old(names).Keys
        invariant forall j :: 0 <= j < i ==> names[rows[j].id] == Repaired(all, j)
        invariant forall j :: i <= j < |rows| ==> names[rows[j].id] == rows[j].name
        invariant forall id :: id in names && (forall j :: 0 <= j < |rows| ==> rows[j].id != id) ==>
                    names[id] == old(names)[id]
      {
        var row := rows[i];
        var baseName := Trim(row.name);
        RowFacts(all, i);
        if baseName == [] { continue; }
        if baseName !in usedNames {
          usedNames := usedNames + {baseName};
          continue;
        }
        var nextName := NextName(baseName, usedNames);
        names := names[row.id := nextName];
        usedNames := usedNames + {nextName};
      }
    }

    /** Counts up from two until a numbered name is free. */
    method NextName(baseName: string, usedNames: set<string>) returns (nextName: string)
      ensures nextName == Numbered(baseName, FirstFree(baseName, usedNames, 2))
    {
      var sequence := 2;
      nextName := Numbered(baseName, sequence);
      TriedAreUsed(baseName, usedNames, 2);
      while nextName in usedNames
        invariant sequence >= 2 && nextName == Numbered(baseName, sequence)
        invariant forall j :: 2 <= j < sequence ==> Numbered(baseName, j) in usedNames
        invariant sequence - 2 <= |usedNames|
        decreases |usedNames| + 2 - sequence
      {
        sequence := sequence + 1;
        nextName := Numbered(baseName, sequence);
        TriedAreUsed(baseName, usedNames, sequence);
      }
      FirstFreeIs(baseName, usedNames, sequence);
    }
  }

  lemma NoneUsed(names: seq<string>)
    ensures Used(names, 0) == {}
  {
  }

  /** The three cases of one row. */
  lemma RowFacts(names: seq<string>, i: nat)
    requires i < |names|
    ensures var base, used, next := Trim(names[i]), Used(names, i), Used(names, i + 1);
            if base == [] then next == used && Repaired(names, i) == names[i]
            else if base !in used then next == used + {base} && Repaired(names, i) == names[i]
            else
              var made := Numbered(base, FirstFree(base, used, 2));
              next == used + {made} && Repaired(names, i) == made
  {
    var base, used := Trim(names[i]), Used(names, i);
    hide Trim, Numbered;
    if base != [] && base in used {
      HeldTrimmed(names, i, FirstFree(base, used, 2));
    }
  }

  lemma FirstFreeIs(base: string, used: set<string>, k: nat)
    requires k >= 2 && Numbered(base, k) !in used && forall j :: 2 <= j < k ==> Numbered(base, j) in used
    ensures FirstFree(base, used, 2) == k
  {
    var r := FirstFree(base, used, 2);
    assert Numbered(base, r) !in used;
  }
}
