/** The pure part of `modules/fractals.py`: turning the browse command's six integer
    weights into proportions and a query URL, the faction colour table, and the colour
    choice of a result card. */
module Fractals {
  import opened Wrappers
  import Text

  /** Python's `sum` over a list of integers. */
  function Sum(wts: seq<int>): int {
    if |wts| == 0 then 0 else wts[0] + Sum(wts[1..])
  }

  /** Each stat's share of the total weight. Python computes them as floats; here they
      are exact reals. */
  datatype Proportions = Proportions(altitude: real, spin: real, velocity: real, purity: real, power: real, faction: real)
  {
    function Total(): real {
      altitude + spin + velocity + purity + power + faction
    }
  }

  /** The `ZeroDivisionError` raised when the weights add up to zero. */
  datatype WeightError = ZeroTotal

  /** Dividing every weight by the total. The browse command lists the weights as
      `faction, power, purity, velocity, spin, altitude` (indices 0 to 5); each share
      times the total gives its weight back. */
  function Normalize(wts: seq<int>): (r: Result<Proportions, WeightError>)
    requires |wts| == 6
    ensures r.Failure? <==> Sum(wts) == 0
    ensures r.Success? ==>
      var t := Sum(wts) as real;
      && r.value.altitude * t == wts[5] as real
      && r.value.spin * t == wts[4] as real
      && r.value.velocity * t == wts[3] as real
      && r.value.purity * t == wts[2] as real
      && r.value.power * t == wts[1] as real
      && r.value.faction * t == wts[0] as real
  {
    var total := Sum(wts);
    if total == 0 then Failure(ZeroTotal)
    else
      var t := total as real;
      Success(Proportions(wts[5] as real / t, wts[4] as real / t, wts[3] as real / t,
                          wts[2] as real / t, wts[1] as real / t, wts[0] as real / t))
  }

  /** The six query parameters, in the order the URL lists them; `render` stands for
      Python's float-to-text conversion. */
  function QueryFields(p: Proportions, render: real -> string): seq<string>
  {
    [ "mul_altitude=" + render(p.altitude),
      "mul_spin=" + render(p.spin),
      "mul_velocity=" + render(p.velocity),
      "mul_purity=" + render(p.purity),
      "mul_power=" + render(p.power),
      "mul_faction=" + render(p.faction) ]
  }

  /** `url_from_wts`: the endpoint, `?`, and the six parameters joined by `&`; no URL when
      the total weight is zero. */
  function UrlFromWeights(endpoint: string, wts: seq<int>, render: real -> string): (r: Result<string, WeightError>)
    requires |wts| == 6
    ensures r.Failure? <==> Sum(wts) == 0
    ensures r.Success? ==> |r.value| > |endpoint| && r.value[..|endpoint| + 1] == endpoint + "?"
  {
    match Normalize(wts)
    case Failure(e) => Failure(e)
    case Success(p) => Success(endpoint + "?" + Text.Join(QueryFields(p, render), '&'))
  }

  lemma {:induction false} SumOfSix(wts: seq<int>)
    requires |wts| == 6
    ensures Sum(wts) == wts[0] + wts[1] + wts[2] + wts[3] + wts[4] + wts[5]
  {
    assert Sum(wts[5..]) == wts[5] by { assert wts[5..][1..] == []; }
    assert Sum(wts[4..]) == wts[4] + wts[5] by { assert wts[4..][1..] == wts[5..]; }
    assert Sum(wts[3..]) == wts[3] + wts[4] + wts[5] by { assert wts[3..][1..] == wts[4..]; }
    assert Sum(wts[2..]) == wts[2] + wts[3] + wts[4] + wts[5] by { assert wts[2..][1..] == wts[3..]; }
    assert Sum(wts[1..]) == wts[1] + wts[2] + wts[3] + wts[4] + wts[5] by { assert wts[1..][1..] == wts[2..]; }
  }

  /** Whenever the total is non-zero the six shares add up to exactly 1 (negative weights
      included). */
  lemma ProportionsSumToOne(wts: seq<int>)
    requires |wts| == 6 && Sum(wts) != 0
    ensures Normalize(wts).Success? && Normalize(wts).value.Total() == 1.0
  {
    SumOfSix(wts);
    var t := Sum(wts) as real;
    var p := Normalize(wts).value;
    calc {
      p.Total() * t;
      p.altitude * t + p.spin * t + p.velocity * t + p.purity * t + p.power * t + p.faction * t;
      wts[5] as real + wts[4] as real + wts[3] as real + wts[2] as real + wts[1] as real + wts[0] as real;
      t;
    }
    MultipliedToItself(p.Total(), t);
  }

  lemma MultipliedToItself(x: real, t: real)
    requires t != 0.0 && x * t == t
    ensures x == 1.0
  {
    assert (x - 1.0) * t == 0.0;
  }

  lemma CancelFactor(a: real, t: real, k: real)
    requires t != 0.0 && k != 0.0
    ensures (k * a) / (k * t) == a / t
  {
    var x := a / t;
    var y := (k * a) / (k * t);
    assert x * t == a;
    assert y * (k * t) == k * a;
    assert k * (y * t) == k * (x * t);
    assert y * t == x * t;
    assert (y - x) * t == 0.0;
  }

  /** Every weight multiplied by `k`. */
  function Scale(wts: seq<int>, k: int): (r: seq<int>)
    ensures |r| == |wts| && forall i :: 0 <= i < |wts| ==> r[i] == k * wts[i]
  {
    if |wts| == 0 then [] else [k * wts[0]] + Scale(wts[1..], k)
  }

  lemma {:induction false} SumScale(wts: seq<int>, k: int)
    ensures Sum(Scale(wts, k)) == k * Sum(wts)
  {
    if |wts| > 0 {
      SumScale(wts[1..], k);
      assert Scale(wts, k)[1..] == Scale(wts[1..], k);
    }
  }

  lemma ScaledShare(a: int, total: int, k: int)
    requires total != 0 && k != 0
    ensures ((k * a) as real) / ((k * total) as real) == (a as real) / (total as real)
  {
    assert (k * a) as real == (k as real) * (a as real);
    assert (k * total) as real == (k as real) * (total as real);
    CancelFactor(a as real, total as real, k as real);
  }

  /** Only the ratios of the weights matter: "1 or 100" give the same query. */
  lemma ScalingInvariance(wts: seq<int>, k: int)
    requires |wts| == 6 && k != 0
    ensures Normalize(Scale(wts, k)) == Normalize(wts)
  {
    var s := Scale(wts, k);
    SumScale(wts, k);
    var total := Sum(wts);
    if total != 0 {
      assert Sum(s) == k * total;
      ScaledShare(wts[0], total, k);
      ScaledShare(wts[1], total, k);
      ScaledShare(wts[2], total, k);
      ScaledShare(wts[3], total, k);
      ScaledShare(wts[4], total, k);
      ScaledShare(wts[5], total, k);
    }
  }

  /** The percentages example of the help text: 25/25/15/15/10/10. */
  lemma PercentagesExample()
    ensures Normalize([25, 25, 15, 15, 10, 10])
         == Success(Proportions(0.1, 0.1, 0.15, 0.15, 0.25, 0.25))
  {
  }

  /** The help text's other example: altitude 10, purity 5, spin, velocity and power 1,
      faction 0 (total 18). */
  lemma MostlyAltitudeExample()
    ensures Normalize([0, 1, 5, 1, 1, 10])
         == Success(Proportions(10.0 / 18.0, 1.0 / 18.0, 1.0 / 18.0, 5.0 / 18.0, 1.0 / 18.0, 0.0))
  {
  }

  lemma NameValueHasNoAmpersand(name: string, value: string)
    requires '&' !in name && '&' !in value
    ensures '&' !in name + value
  {
  }

  lemma FieldsHaveNoAmpersand(p: Proportions, render: real -> string)
    requires forall x :: '&' !in render(x)
    ensures forall i :: 0 <= i < 6 ==> '&' !in QueryFields(p, render)[i]
  {
    NameValueHasNoAmpersand("mul_altitude=", render(p.altitude));
    NameValueHasNoAmpersand("mul_spin=", render(p.spin));
    NameValueHasNoAmpersand("mul_velocity=", render(p.velocity));
    NameValueHasNoAmpersand("mul_purity=", render(p.purity));
    NameValueHasNoAmpersand("mul_power=", render(p.power));
    NameValueHasNoAmpersand("mul_faction=", render(p.faction));
  }

  /** The fields built from the shares of `wts`, named in the URL's order. */
  lemma FieldsOfWeights(wts: seq<int>, render: real -> string)
    requires |wts| == 6 && Sum(wts) != 0
    ensures
      var t := Sum(wts) as real;
      QueryFields(Normalize(wts).value, render)
        == [ "mul_altitude=" + render(wts[5] as real / t),
             "mul_spin=" + render(wts[4] as real / t),
             "mul_velocity=" + render(wts[3] as real / t),
             "mul_purity=" + render(wts[2] as real / t),
             "mul_power=" + render(wts[1] as real / t),
             "mul_faction=" + render(wts[0] as real / t) ]
  {
  }

  /** With no `&` in a rendered number, the text after `endpoint?` splits on `&` into the
      six `name=value` fields in the fixed order, each value the matching weight over the
      total; so there is no trailing `&`. */
  lemma UrlQueryFields(endpoint: string, wts: seq<int>, render: real -> string)
    requires |wts| == 6 && Sum(wts) != 0
    requires forall x :: '&' !in render(x)
    ensures UrlFromWeights(endpoint, wts, render).Success?
    ensures
      var url := UrlFromWeights(endpoint, wts, render).value;
      var t := Sum(wts) as real;
      Text.Split(url[|endpoint| + 1..], '&')
        == [ "mul_altitude=" + render(wts[5] as real / t),
             "mul_spin=" + render(wts[4] as real / t),
             "mul_velocity=" + render(wts[3] as real / t),
             "mul_purity=" + render(wts[2] as real / t),
             "mul_power=" + render(wts[1] as real / t),
             "mul_faction=" + render(wts[0] as real / t) ]
  {
    var p := Normalize(wts).value;
    var fields := QueryFields(p, render);
    FieldsHaveNoAmpersand(p, render);
    var q := Text.Join(fields, '&');
    assert UrlFromWeights(endpoint, wts, render).value == endpoint + "?" + q;
    assert (endpoint + "?" + q)[|endpoint| + 1..] == q;
    Text.SplitJoin(fields, '&');
    FieldsOfWeights(wts, render);
  }

  // ---- faction colours ----

  const Gray := 0x808080

  /** `fac_to_color`: an exact, case-sensitive lookup of the four faction names; every
      other string gets gray. */
  function FacToColor(faction: string): (color: int)
    ensures color == 0x0000FF <==> faction == "tri"
    ensures color == 0xFF0000 <==> faction == "quad"
    ensures color == 0x800080 <==> faction == "penta"
    ensures color == 0xFFD700 <==> faction == "hexa"
    ensures color == Gray <==> faction !in {"tri", "quad", "penta", "hexa"}
  {
    if faction == "tri" then 0x0000FF
    else if faction == "quad" then 0xFF0000
    else if faction == "penta" then 0x800080
    else if faction == "hexa" then 0xFFD700
    else Gray
  }

  /** The lookup does not fold case. */
  lemma FacToColorIsCaseSensitive()
    ensures FacToColor("Tri") == Gray && FacToColor("Quad") == Gray
    ensures FacToColor("Penta") == Gray && FacToColor("Hexa") == Gray
    ensures FacToColor("TRI") == Gray
  {
  }

  // ---- Python's str.title(), for ASCII letters ----

  predicate IsCased(c: char) {
    'a' <= c <= 'z' || 'A' <= c <= 'Z'
  }

  function Upper(c: char): (u: char)
    ensures IsCased(u) == IsCased(c) && !('a' <= u <= 'z')
  {
    if 'a' <= c <= 'z' then (c as int - 32) as char else c
  }

  function Lower(c: char): (l: char)
    ensures IsCased(l) == IsCased(c)
  {
    if 'A' <= c <= 'Z' then (c as int + 32) as char else c
  }

  /** `title()` from a position whose preceding character is cased (`afterCased`) or not:
      a letter after a letter is lowered, any other letter is raised. */
  function TitleFrom(s: string, afterCased: bool): (t: string)
    ensures |t| == |s|
  {
    if |s| == 0 then ""
    else [if afterCased then Lower(s[0]) else Upper(s[0])] + TitleFrom(s[1..], IsCased(s[0]))
  }

  function Title(s: string): (t: string)
    ensures |t| == |s|
  {
    TitleFrom(s, false)
  }

  lemma {:induction false} TitleFromIdempotent(s: string, afterCased: bool)
    ensures TitleFrom(TitleFrom(s, afterCased), afterCased) == TitleFrom(s, afterCased)
  {
    if |s| > 0 {
      var t := TitleFrom(s, afterCased);
      TitleFromIdempotent(s[1..], IsCased(s[0]));
      assert t[1..] == TitleFrom(s[1..], IsCased(s[0]));
      assert IsCased(t[0]) == IsCased(s[0]);
    }
  }

  /** Title-casing twice changes nothing more. */
  lemma TitleIdempotent(s: string)
    ensures Title(Title(s)) == Title(s)
  {
    TitleFromIdempotent(s, false);
  }

  /** The colour a result card gets, as written: `fac_to_color(str(faction).title())`. */
  function EmbedColorAsWritten(faction: string): int {
    FacToColor(Title(faction))
  }

  /** As written, every card is gray: a title-cased string never starts with a lower-case
      letter, and all four table keys do. */
  lemma EmbedColorAsWrittenIsAlwaysGray(faction: string)
    ensures EmbedColorAsWritten(faction) == Gray
  {
    var t := Title(faction);
    if |t| > 0 {
      assert t[0] == Upper(faction[0]);
      assert !('a' <= t[0] <= 'z');
    }
    assert t != "tri" && t != "quad" && t != "penta" && t != "hexa";
  }

  /** The colour a result card evidently should get: the plain `FacToColor(faction)`,
      the faction looked up as the remote record spells it, without title-casing. */
  function EmbedColor(faction: string): (color: int)
    ensures color != Gray <==> faction in {"tri", "quad", "penta", "hexa"}
  {
    FacToColor(faction)
  }
}
