/** The paths of the webhook's patches, which it concatenates as text, and the places in
    the pod that they denote (RFC 6901, sections 3 and 4). */
module JsonPointer {
  import opened Wrappers
  import opened GoText
  import opened PodPatch

  /** A member of a container, or the place behind the last volume. */
  datatype Location = OfContainer(i: nat, member: Member) | BehindVolumes

  function LocationOf(p: Patch): Location {
    match p
    case InContainer(i, _, member, _) => OfContainer(i, member)
    case AddVolume(_) => BehindVolumes
  }

  /** The reference tokens of a member, from the container on. */
  function MemberTokens(member: Member): seq<string> {
    match member
    case CpuLimit => ["resources", "limits", "cpu"]
    case CpuRequest => ["resources", "requests", "cpu"]
    case Env => ["env"]
    case EnvEnd => ["env", "-"]
    case MountsEnd => ["volumeMounts", "-"]
    case Command => ["command"]
    case Args => ["args"]
  }

  function LocationTokens(at: Location): seq<string> {
    match at
    case OfContainer(i, member) => ["spec", "containers", Itoa(i)] + MemberTokens(member)
    case BehindVolumes => ["spec", "volumes", "-"]
  }

  /** Each token behind a slash. */
  function Pointer(tokens: seq<string>): string {
    if tokens == [] then "" else "/" + tokens[0] + Pointer(tokens[1..])
  }

  /** The path text that the webhook builds, such as /spec/containers/0/env/- . */
  function PathText(at: Location): string {
    Pointer(LocationTokens(at))
  }

  // ---- Reading a pointer ----

  function Split(s: string): (parts: seq<string>)
    ensures parts != []
  {
    if s == "" then [""] else
      var rest := Split(s[1..]);
      if s[0] == '/' then [""] + rest else [[s[0]] + rest[0]] + rest[1..]
  }

  /** The reference tokens of a pointer; none of the webhook's holds an escape. */
  function Tokens(path: string): seq<string> {
    if path == "" then [] else Split(path[1..])
  }

  /** An array index: digits without a leading zero. */
  function ArrayIndex(token: string): Option<nat> {
    if token != "" && AllDigits(token) && (token == "0" || token[0] != '0') then Some(DigitsValue(token)) else None
  }

  function MemberOf(tokens: seq<string>): Option<Member> {
    if |tokens| == 3 && tokens[0] == "resources" && tokens[2] == "cpu" then
      if tokens[1] == "limits" then Some(CpuLimit)
      else if tokens[1] == "requests" then Some(CpuRequest)
      else None
    else if |tokens| == 2 && tokens[1] == "-" then
      if tokens[0] == "env" then Some(EnvEnd)
      else if tokens[0] == "volumeMounts" then Some(MountsEnd)
      else None
    else if |tokens| == 1 then
      if tokens[0] == "env" then Some(Env)
      else if tokens[0] == "command" then Some(Command)
      else if tokens[0] == "args" then Some(Args)
      else None
    else None
  }

  function LocationFrom(tokens: seq<string>): Option<Location> {
    if |tokens| < 3 || tokens[0] != "spec" then None
    else if tokens[1] == "volumes" then
      if |tokens| == 3 && tokens[2] == "-" then Some(BehindVolumes) else None
    else if tokens[1] == "containers" then
      match (ArrayIndex(tokens[2]), MemberOf(tokens[3..]))
      case (Some(i), Some(member)) => Some(OfContainer(i, member))
      case _ => None
    else None
  }

  /** The place that a pointer denotes, among those the webhook writes to. */
  function Resolve(path: string): Option<Location> {
    if path == "" || path[0] != '/' then None else LocationFrom(Tokens(path))
  }

  lemma {:induction false} SplitLast(token: string)
    requires '/' !in token
    ensures Split(token) == [token]
  {
    if token != "" {
      assert token[0] in token;
      SplitLast(token[1..]);
      assert [token[0]] + token[1..] == token;
    }
  }

  lemma {:induction false} SplitFirst(token: string, rest: string)
    requires '/' !in token
    ensures Split(token + "/" + rest) == [token] + Split(rest)
  {
    var s := token + "/" + rest;
    if token == "" {
      assert s[1..] == rest;
    } else {
      assert token[0] in token;
      assert s[1..] == token[1..] + "/" + rest;
      SplitFirst(token[1..], rest);
      assert [token[0]] + token[1..] == token;
    }
  }

  /** Splitting undoes the joining, for tokens without a slash. */
  lemma {:induction false} TokensOfPointer(tokens: seq<string>)
    requires tokens != [] && forall k | 0 <= k < |tokens| :: '/' !in tokens[k]
    ensures Pointer(tokens) != "" && Pointer(tokens)[0] == '/' && Tokens(Pointer(tokens)) == tokens
  {
    var rest := tokens[1..];
    assert Pointer(tokens)[1..] == tokens[0] + Pointer(rest);
    if rest == [] {
      assert tokens[0] + "" == tokens[0];
      SplitLast(tokens[0]);
      assert tokens == [tokens[0]];
    } else {
      forall k | 0 <= k < |rest| ensures '/' !in rest[k] {
        assert rest[k] == tokens[k + 1];
      }
      TokensOfPointer(rest);
      assert Pointer(rest) == "/" + Pointer(rest)[1..];
      assert tokens[0] + Pointer(rest) == tokens[0] + "/" + Pointer(rest)[1..];
      SplitFirst(tokens[0], Pointer(rest)[1..]);
      assert [tokens[0]] + rest == tokens;
    }
  }

  lemma {:induction false} DigitsNoSlash(s: string)
    requires AllDigits(s)
    ensures '/' !in s
  {
    assert forall k | 0 <= k < |s| :: IsDigit(s[k]);
  }

  lemma ItoaIsIndex(n: nat)
    ensures '/' !in Itoa(n) && ArrayIndex(Itoa(n)) == Some(n)
  {
    ItoaDigits(n);
    LeadingDigit(n);
    DigitsNoSlash(Itoa(n));
  }

  lemma {:induction false} LeadingDigit(n: nat)
    ensures Itoa(n) != "" && (n == 0 || Itoa(n)[0] != '0')
    ensures Itoa(0) == "0"
  {
    if n >= 10 {
      LeadingDigit(n / 10);
    }
  }

  lemma MemberRead(member: Member)
    ensures MemberOf(MemberTokens(member)) == Some(member)
    ensures forall k | 0 <= k < |MemberTokens(member)| :: '/' !in MemberTokens(member)[k]
  {
    assert |"limits"| == 6 && |"requests"| == 8 && |"env"| == 3 && |"volumeMounts"| == 12 && |"command"| == 7 && |"args"| == 4;
  }

  lemma LocationRead(at: Location)
    ensures LocationFrom(LocationTokens(at)) == Some(at)
    ensures forall k | 0 <= k < |LocationTokens(at)| :: '/' !in LocationTokens(at)[k]
  {
    if at.OfContainer? {
      MemberRead(at.member);
      ItoaIsIndex(at.i);
      assert LocationTokens(at)[3..] == MemberTokens(at.member);
      assert |"containers"| == 10 && |"volumes"| == 7;
    }
  }

  /** Every path the webhook builds denotes the place it means. */
  lemma PathDenotes(at: Location)
    ensures Resolve(PathText(at)) == Some(at)
  {
    LocationRead(at);
    TokensOfPointer(LocationTokens(at));
  }

  /** So two patches with the same path change the same place. */
  lemma PathsDiffer(p: Patch, q: Patch)
    ensures PathText(LocationOf(p)) == PathText(LocationOf(q)) <==> LocationOf(p) == LocationOf(q)
  {
    PathDenotes(LocationOf(p));
    PathDenotes(LocationOf(q));
  }

  lemma {:induction false} PointerConcat(front: seq<string>, back: seq<string>)
    ensures Pointer(front + back) == Pointer(front) + Pointer(back)
  {
    if front == [] {
      assert front + back == back;
    } else {
      PointerConcat(front[1..], back);
      assert (front + back)[1..] == front[1..] + back;
    }
  }

  lemma PointerOfThree(a: string, b: string, c: string)
    ensures Pointer([a, b, c]) == "/" + a + "/" + b + "/" + c
  {
    assert [a, b, c][1..] == [b, c] && [b, c][1..] == [c] && [c][1..] == [];
    assert Pointer([c]) == "/" + c;
    assert Pointer([b, c]) == "/" + b + "/" + c;
  }

  /** The text behind the index of the container. */
  function Suffix(member: Member): string {
    match member
    case CpuLimit => "/" + "resources" + "/" + "limits" + "/" + "cpu"
    case CpuRequest => "/" + "resources" + "/" + "requests" + "/" + "cpu"
    case Env => "/" + "env"
    case EnvEnd => "/" + "env" + "/" + "-"
    case MountsEnd => "/" + "volumeMounts" + "/" + "-"
    case Command => "/" + "command"
    case Args => "/" + "args"
  }

  lemma MemberText(member: Member)
    ensures Pointer(MemberTokens(member)) == Suffix(member)
  {
    match member
    case CpuLimit => PointerOfThree("resources", "limits", "cpu");
    case CpuRequest => PointerOfThree("resources", "requests", "cpu");
    case Env => PointerOfOne("env");
    case EnvEnd => PointerOfTwo("env", "-");
    case MountsEnd => PointerOfTwo("volumeMounts", "-");
    case Command => PointerOfOne("command");
    case Args => PointerOfOne("args");
  }

  lemma PointerOfTwo(a: string, b: string)
    ensures Pointer([a, b]) == "/" + a + "/" + b
  {
    assert [a, b][1..] == [b] && [b][1..] == [];
    assert Pointer([b]) == "/" + b;
  }

  lemma PointerOfOne(a: string)
    ensures Pointer([a]) == "/" + a
  {
    assert [a][1..] == [];
  }

  /** The paths are the texts that the webhook concatenates. */
  lemma PathTexts(i: nat, member: Member)
    ensures PathText(OfContainer(i, member)) == "/" + "spec" + "/" + "containers" + "/" + Itoa(i) + Suffix(member)
    ensures PathText(BehindVolumes) == "/" + "spec" + "/" + "volumes" + "/" + "-"
  {
    MemberText(member);
    PointerConcat(["spec", "containers", Itoa(i)], MemberTokens(member));
    PointerOfThree("spec", "containers", Itoa(i));
    PointerOfThree("spec", "volumes", "-");
  }
}
