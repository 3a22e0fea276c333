/** The string a group id is computed from, and when it identifies the group. */
module GroupId {
  import opened Pacers

  function PacerId(p: Pacer): string {
    (if p.Exponential? then "*exponential.pacer[" else "*linear.pacer[") + p.key + "]"
  }

  /** strings.Join with a comma. */
  function Join(parts: seq<string>): string {
    if parts == [] then ""
    else if |parts| == 1 then parts[0]
    else parts[0] + "," + Join(parts[1..])
  }

  function PacerIds(pacers: seq<Pacer>): (r: seq<string>)
    ensures |r| == |pacers|
    ensures forall i :: 0 <= i < |r| ==> r[i] == PacerId(pacers[i])
  {
    if pacers == [] then [] else PacerIds(pacers[..|pacers| - 1]) + [PacerId(pacers[|pacers| - 1])]
  }

  /** The rendering that is hashed into the group id. */
  function Render(pacerIds: seq<string>, configNames: seq<string>): string {
    "[" + Join(pacerIds) + "](" + Join(configNames) + ")"
  }

  predicate Free(s: string, c: char) {
    forall i :: 0 <= i < |s| ==> s[i] != c
  }

  predicate AllFree(parts: seq<string>, c: char) {
    forall i :: 0 <= i < |parts| ==> Free(parts[i], c)
  }

  /** Position of the first comma, or the length if there is none. */
  function FirstComma(s: string): (n: nat)
    ensures n <= |s|
    ensures forall i :: 0 <= i < n ==> s[i] != ','
    ensures n < |s| ==> s[n] == ','
  {
    if s == "" || s[0] == ',' then 0 else 1 + FirstComma(s[1..])
  }

  /** The parser for Join's output: cut at every comma. */
  function Split(s: string): seq<string>
    decreases |s|
  {
    var n := FirstComma(s);
    if n == |s| then [s] else [s[..n]] + Split(s[n + 1..])
  }

  /** Parsing what was printed gives the parts back, for any list that is not empty and whose
      parts hold no comma. */
  lemma {:induction false} SplitJoin(parts: seq<string>)
    requires parts != [] && AllFree(parts, ',')
    ensures Split(Join(parts)) == parts
  {
    var s := Join(parts);
    assert Free(parts[0], ',');
    if |parts| == 1 {
      assert parts == [parts[0]];
      assert FirstComma(s) == |s|;
    } else {
      var n := |parts[0]|;
      assert s[..n] == parts[0] && s[n] == ',' && s[n + 1..] == Join(parts[1..]);
      assert forall i :: 0 <= i < n ==> s[i] == parts[0][i];
      assert FirstComma(s) == n;
      SplitJoin(parts[1..]);
    }
  }

  lemma {:induction false} JoinKeepsFree(parts: seq<string>, c: char)
    requires AllFree(parts, c) && c != ','
    ensures Free(Join(parts), c)
  {
    if |parts| > 1 {
      JoinKeepsFree(parts[1..], c);
    }
  }

  /** The last '(' separates the two halves, so equal renderings have equal halves. */
  lemma HalvesAgree(p: string, c: string, p': string, c': string)
    requires Free(c, '(') && Free(c', '(')
    requires "[" + p + "](" + c + ")" == "[" + p' + "](" + c' + ")"
    ensures p == p' && c == c'
  {
    var s, s' := "[" + p + "](" + c + ")", "[" + p' + "](" + c' + ")";
    var k, k' := |p| + 2, |p'| + 2;
    assert s[k] == '(' && s'[k'] == '(';
    assert s[1..k - 1] == p && s[k + 1..|s| - 1] == c;
    assert s'[1..k' - 1] == p' && s'[k' + 1..|s'| - 1] == c';
    assert forall i :: k < i < |s| - 1 ==> s[i] == c[i - k - 1];
    assert forall i :: k' < i < |s'| - 1 ==> s'[i] == c'[i - k' - 1];
    assert k == k';
  }

  /** The rendering is injective on the lists the classifier builds: equal strings come from the
      same pacer ids and the same config names. */
  lemma RenderIsInjective(ids: seq<string>, names: seq<string>, ids': seq<string>, names': seq<string>)
    requires ids != [] && names != [] && ids' != [] && names' != []
    requires AllFree(ids, ',') && AllFree(ids', ',')
    requires AllFree(names, ',') && AllFree(names', ',') && AllFree(names, '(') && AllFree(names', '(')
    requires Render(ids, names) == Render(ids', names')
    ensures ids == ids' && names == names'
  {
    JoinKeepsFree(names, '(');
    JoinKeepsFree(names', '(');
    HalvesAgree(Join(ids), Join(names), Join(ids'), Join(names'));
    SplitJoin(ids);
    SplitJoin(ids');
    SplitJoin(names);
    SplitJoin(names');
  }

  /** A pacer id names the kind and the key, but not the configuration. */
  lemma PacerIdIsKindAndKey(p: Pacer, q: Pacer)
    ensures PacerId(p) == PacerId(q) <==> p.Exponential? == q.Exponential? && p.key == q.key
  {
    var x, y := PacerId(p), PacerId(q);
    if x == y {
      assert x[1] == if p.Exponential? then 'e' else 'l';
      assert y[1] == if q.Exponential? then 'e' else 'l';
      var n := if p.Exponential? then 19 else 14;
      assert x[n..|x| - 1] == p.key;
      assert y[n..|y| - 1] == q.key;
    }
  }

  lemma CommaFreeId(p: Pacer)
    requires Free(p.key, ',')
    ensures Free(PacerId(p), ',')
  {
  }

  lemma Reassociate(head: string, a: string, b: string, c: string)
    ensures var join := "]," + head;
            (head + (a + join + b) + "]") + "," + (head + c + "]") == (head + a + "]") + "," + (head + (b + join + c) + "]")
  {
    var join := "]," + head;
    var tail := join + b + join + c + "]";
    assert (head + (a + join + b) + "]") + "," + (head + c + "]") == head + a + tail;
    assert (head + a + "]") + "," + (head + (b + join + c) + "]") == head + a + tail;
  }

  lemma JoinOfTwo(p: Pacer, q: Pacer)
    ensures Join(PacerIds([p, q])) == PacerId(p) + "," + PacerId(q)
  {
    assert PacerIds([p, q]) == [PacerId(p), PacerId(q)];
  }

  /** The comma condition is needed. Keys with a comma in them can print alike: these two
      different pairs of pacers get the same id under any config names. */
  lemma CommasCollide(a: string, b: string, c: string, config: ExponentialConfig, names: seq<string>)
    ensures var join := "]," + "*exponential.pacer[";
            var left := [Exponential(a + join + b, config), Exponential(c, config)];
            var right := [Exponential(a, config), Exponential(b + join + c, config)];
            && Render(PacerIds(left), names) == Render(PacerIds(right), names)
            && left != right
  {
    var head := "*exponential.pacer[";
    var join := "]," + head;
    var x, y := Exponential(a + join + b, config), Exponential(c, config);
    var x', y' := Exponential(a, config), Exponential(b + join + c, config);
    assert |x.key| > |x'.key|;
    assert [x, y][0] != [x', y'][0];
    JoinOfTwo(x, y);
    JoinOfTwo(x', y');
    Reassociate(head, a, b, c);
    hide Join, PacerIds;
  }

  /** So is the condition on "(". A key and a config name with "](" in them can print alike: these
      two different groups of one pacer each get the same id. */
  lemma ParenthesesCollide(a: string, b: string, c: string, config: LinearConfig)
    ensures var left, right := [Linear(a + "]](" + b, config)], [Linear(a, config)];
            var name := b + "]](" + c;
            && Render(PacerIds(left), [c]) == Render(PacerIds(right), [name])
            && left != right && [c] != [name]
  {
    var head, cut := "*linear.pacer[", "]](";
    var x, y := Linear(a + cut + b, config), Linear(a, config);
    assert PacerIds([x]) == [PacerId(x)] && PacerIds([y]) == [PacerId(y)];
    assert |x.key| > |y.key| && [x][0] != [y][0];
    assert |b + cut + c| > |c| && [c][0] != [b + cut + c][0];
    assert Render(PacerIds([x]), [c]) == "[" + head + a + cut + b + cut + c + ")";
    assert Render(PacerIds([y]), [b + cut + c]) == "[" + head + a + cut + b + cut + c + ")";
  }

  /** And that on commas in config names. */
  lemma NameCommasCollide(ids: seq<string>, a: string, b: string, c: string)
    ensures var left, right := [a + "," + b, c], [a, b + "," + c];
            Render(ids, left) == Render(ids, right) && left != right
  {
    var left, right := [a + "," + b, c], [a, b + "," + c];
    assert |left[0]| > |right[0]|;
    assert left[1..] == [c] && right[1..] == [b + "," + c];
    assert Join(left) == a + "," + b + "," + c == Join(right);
  }
}
