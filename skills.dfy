/** The skill badges (src/components/Skills.tsx): each badge gets a background gradient
    chosen by the length of the skill's name and shows the name's first two characters in
    capitals. */
module Skills {
  import opened Strings

  const Gradients: seq<string> := [
    "from-red-500 to-orange-500",
    "from-blue-500 to-cyan-500",
    "from-purple-500 to-pink-500",
    "from-green-500 to-emerald-500",
    "from-yellow-500 to-orange-500",
    "from-indigo-500 to-purple-500",
    "from-pink-500 to-rose-500"
  ]

  /** `getGradient`: `name.length % gradients.length` is always a valid position, so every
      name gets one of the seven gradients. */
  function GetGradient(name: string): (g: string)
    ensures g in Gradients
  {
    Gradients[|name| % |Gradients|]
  }

  /** The gradient depends on the length of the name only, and repeats every seven
      characters of length. */
  lemma GradientByLength(a: string, b: string)
    ensures |a| == |b| ==> GetGradient(a) == GetGradient(b)
    ensures |b| == |a| + 7 ==> GetGradient(a) == GetGradient(b)
  {
    assert |Gradients| == 7;
    assert (|a| + 7) % 7 == |a| % 7;
  }

  /** `name.substring(0, 2).toUpperCase()` */
  function GetInitials(name: string): (r: string)
    ensures |r| == if |name| < 2 then |name| else 2
    ensures forall i :: 0 <= i < |r| ==> r[i] == ToUpperChar(name[i])
    ensures forall i :: 0 <= i < |r| ==> !IsLowerAscii(r[i])
  {
    ToUpper(name[..if |name| < 2 then |name| else 2])
  }

  /** Initials are already in capitals and at most two long, so taking them again changes
      nothing. */
  lemma InitialsIdempotent(name: string)
    ensures GetInitials(GetInitials(name)) == GetInitials(name)
  {
    var r := GetInitials(name);
    var rr := GetInitials(r);
    assert |rr| == |r|;
    forall i | 0 <= i < |r| ensures rr[i] == r[i] {
      assert rr[i] == ToUpperChar(r[i]);
    }
  }

  /** Initials of a name differ only in case from its first two characters. */
  lemma InitialsIgnoreCase(a: string, b: string)
    requires |a| == |b|
    requires forall i :: 0 <= i < |a| ==> ToUpperChar(a[i]) == ToUpperChar(b[i])
    ensures GetInitials(a) == GetInitials(b)
  {
  }
}
