/** The file-type check of the upload button (`handleFileUpload`): only
    names whose extension is on the allow-list are sent for analysis. */
module Upload {
  import opened Strings

  const AllowedExtensions: seq<string> := ["csv", "txt", "xls", "xlsx"]
  const InvalidTypeMessage: string := "Invalid file type. Please upload a valid document."

  /** `name.split('.').pop()`: the part after the last dot, or the whole
      name when it has no dot. */
  function LastSegment(name: string): (r: string)
    ensures '.' !in r
    ensures EndsWith(name, r)
    ensures |r| < |name| ==> name[|name| - |r| - 1] == '.'
  {
    if |name| == 0 then ""
    else if name[|name| - 1] == '.' then ""
    else
      var init := name[..|name| - 1];
      var r' := LastSegment(init);
      var r := r' + [name[|name| - 1]];
      assert init[|init| - |r'|..] == r';
      assert name[|name| - |r|..] == init[|init| - |r'|..] + [name[|name| - 1]];
      r
  }

  /** `.toLowerCase()` of the last segment. */
  function Extension(name: string): string
  {
    Lower(LastSegment(name))
  }

  predicate IsAllowed(name: string)
  {
    Extension(name) in AllowedExtensions
  }

  /** The reference reading of the check: the lower-cased name is one of the
      extensions itself, or ends in a dot followed by one of them. */
  predicate HasAllowedEnding(name: string)
  {
    exists e :: e in AllowedExtensions && (Lower(name) == e || EndsWith(Lower(name), "." + e))
  }

  lemma LastSegmentWithoutDot(name: string)
    requires '.' !in name
    ensures LastSegment(name) == name
  {
    var r := LastSegment(name);
    assert forall i :: 0 <= i < |name| ==> name[i] != '.';
    assert |r| == |name|;
  }

  lemma {:induction false} LastSegmentAfterDot(name: string, j: nat)
    requires j < |name| && name[j] == '.'
    requires '.' !in name[j + 1..]
    ensures LastSegment(name) == name[j + 1..]
    decreases |name|
  {
    if j < |name| - 1 {
      var init := name[..|name| - 1];
      assert init[j + 1..] == name[j + 1..|name| - 1];
      var tail := init[j + 1..];
      assert '.' !in tail by {
        forall i | 0 <= i < |tail| ensures tail[i] != '.' {
          assert tail[i] == name[j + 1..][i];
        }
      }
      LastSegmentAfterDot(init, j);
      assert name[|name| - 1] == name[j + 1..][|name| - j - 2];
      assert name[j + 1..] == init[j + 1..] + [name[|name| - 1]];
    }
  }

  lemma LowerKeepsDots(s: string)
    ensures '.' in Lower(s) <==> '.' in s
  {
    if '.' in s {
      var i :| 0 <= i < |s| && s[i] == '.';
      assert Lower(s)[i] == '.';
    }
  }

  lemma NoDotInAllowed(e: string)
    requires e in AllowedExtensions
    ensures '.' !in e
  {
  }

  lemma AllowedHasEnding(name: string)
    requires IsAllowed(name)
    ensures HasAllowedEnding(name)
  {
    var seg := LastSegment(name);
    var k := |name| - |seg|;
    var e := Extension(name);
    assert name[k..] == seg;
    LowerSlice(name, k, |name|);
    if k == 0 {
      assert Lower(name) == e;
    } else {
      assert name[k - 1] == '.';
      assert Lower(name)[k - 1..] == "." + e;
      assert EndsWith(Lower(name), "." + e);
    }
  }

  lemma ExtensionOfExact(name: string, e: string)
    requires '.' !in e && Lower(name) == e
    ensures Extension(name) == e
  {
    LowerKeepsDots(name);
    LastSegmentWithoutDot(name);
  }

  lemma ExtensionAfterDot(name: string, e: string)
    requires '.' !in e && EndsWith(Lower(name), "." + e)
    ensures Extension(name) == e
  {
    var j := |name| - |e| - 1;
    var low := Lower(name);
    assert low[j..] == "." + e;
    assert low[j] == '.';
    assert name[j] == '.';
    LowerSlice(name, j + 1, |name|);
    assert low[j + 1..] == e;
    LowerKeepsDots(name[j + 1..]);
    LastSegmentAfterDot(name, j);
  }

  lemma EndingIsAllowed(name: string)
    requires HasAllowedEnding(name)
    ensures IsAllowed(name)
  {
    var e :| e in AllowedExtensions && (Lower(name) == e || EndsWith(Lower(name), "." + e));
    NoDotInAllowed(e);
    if Lower(name) == e {
      ExtensionOfExact(name, e);
    } else {
      ExtensionAfterDot(name, e);
    }
  }

  /** The extension check accepts a name exactly when its lower-cased form
      is an allowed extension or ends in a dot and an allowed extension. */
  lemma IsAllowedIff(name: string)
    ensures IsAllowed(name) <==> HasAllowedEnding(name)
  {
    if IsAllowed(name) {
      AllowedHasEnding(name);
    }
    if HasAllowedEnding(name) {
      EndingIsAllowed(name);
    }
  }
}
