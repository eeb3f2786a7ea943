/** costLocked of internal/billing/billing.go: the price of a model and the cost of a request, in reals. */
module Cost {

  /** Dollars for a million tokens. */
  datatype ModelPrice = ModelPrice(input: real, output: real, cached: real)

  const NO_PRICE := ModelPrice(0.0, 0.0, 0.0)

  /** `name` followed by '-' starts `model`. */
  predicate IsFamily(name: string, model: string) {
    |name| < |model| && model[..|name|] == name && model[|name|] == '-'
  }

  /** Names of a family are followed by a dash and anything. */
  lemma FamilyIff(name: string, model: string)
    ensures IsFamily(name, model) <==> exists rest :: model == name + "-" + rest
  {
    if IsFamily(name, model) {
      assert model == name + "-" + model[|name| + 1..];
    }
  }

  /** The longest family name of `model` in the table; the empty name when there is none. */
  predicate IsBest(best: string, prices: set<string>, model: string) {
    && (best != "" ==> best in prices && IsFamily(best, model))
    && forall name | name in prices && IsFamily(name, model) :: |name| <= |best|
  }

  /** There is one such name, so the order of a map iteration does not matter. */
  lemma BestIsUnique(a: string, b: string, prices: set<string>, model: string)
    requires IsBest(a, prices, model) && IsBest(b, prices, model)
    ensures a == b
  {
    if a != "" {
      assert |a| <= |b|;
    }
    if b != "" {
      assert |b| <= |a|;
    }
    if a != "" && b != "" {
      assert a == model[..|a|] && b == model[..|b|];
    }
  }

  /** The price of `model`: by its own name, else by the longest family name, else by the empty name. */
  predicate IsPrice(p: ModelPrice, prices: map<string, ModelPrice>, model: string) {
    if model in prices then p == prices[model]
    else exists best | best in prices.Keys + {""} :: IsBest(best, prices.Keys, model) &&
                                                    p == if best in prices then prices[best] else NO_PRICE
  }

  lemma PriceIsUnique(p: ModelPrice, q: ModelPrice, prices: map<string, ModelPrice>, model: string)
    requires IsPrice(p, prices, model) && IsPrice(q, prices, model)
    ensures p == q && (model in prices ==> p == prices[model])
  {
    if model !in prices {
      var a :| a in prices.Keys + {""} && IsBest(a, prices.Keys, model) &&
               p == if a in prices then prices[a] else NO_PRICE;
      var b :| b in prices.Keys + {""} && IsBest(b, prices.Keys, model) &&
               q == if b in prices then prices[b] else NO_PRICE;
      BestIsUnique(a, b, prices.Keys, model);
    }
  }

  function CostAt(p: ModelPrice, input: int, output: int, cached: int, multiplier: real): real {
    (input as real * p.input + output as real * p.output + cached as real * p.cached) / 1000000.0 * multiplier
  }

  /** The loop over the table, in any order. */
  method FindBest(prices: map<string, ModelPrice>, model: string) returns (best: string)
    ensures IsBest(best, prices.Keys, model)
  {
    best := "";
    var left := prices.Keys;
    while left != {}
      invariant left <= prices.Keys && IsBest(best, prices.Keys - left, model)
      decreases |left|
    {
      var name :| name in left;
      left := left - {name};
      if |name| > |best| && |model| > |name| && model[..|name|] == name && model[|name|] == '-' {
        best := name;
      }
    }
    assert prices.Keys - left == prices.Keys;
  }

  method Price(prices: map<string, ModelPrice>, model: string) returns (p: ModelPrice)
    ensures IsPrice(p, prices, model)
  {
    if model in prices {
      p := prices[model];
    } else {
      var best := FindBest(prices, model);
      p := if best in prices then prices[best] else NO_PRICE;
    }
  }

  method CostLocked(prices: map<string, ModelPrice>, multiplier: real, model: string,
                    input: int, output: int, cached: int)
    returns (cost: real)
    ensures exists p :: IsPrice(p, prices, model)
    ensures forall p | IsPrice(p, prices, model) :: cost == CostAt(p, input, output, cached, multiplier)
  {
    var p := Price(prices, model);
    var usd := (input as real * p.input + output as real * p.output + cached as real * p.cached) / 1000000.0;
    cost := usd * multiplier;
    forall q | IsPrice(q, prices, model) ensures q == p {
      PriceIsUnique(p, q, prices, model);
    }
  }

  /** The longest family name gives the price of a model that is not priced itself. */
  lemma LongestFamilyPrices(prices: map<string, ModelPrice>, model: string, p: ModelPrice, family: string)
    requires model !in prices && family in prices && IsFamily(family, model)
    requires forall name | name in prices && IsFamily(name, model) :: |name| <= |family|
    ensures IsPrice(p, prices, model) <==> p == prices[family]
  {
    assert IsBest(family, prices.Keys, model);
    if IsPrice(p, prices, model) {
      PriceIsUnique(p, prices[family], prices, model);
    }
  }

  /** No family: the price of the empty name, or none. */
  lemma NoFamilyPrices(prices: map<string, ModelPrice>, model: string, p: ModelPrice)
    requires model !in prices && forall name | name in prices :: !IsFamily(name, model)
    ensures IsPrice(p, prices, model) <==> p == if "" in prices then prices[""] else ModelPrice(0.0, 0.0, 0.0)
  {
    assert IsBest("", prices.Keys, model);
    var q := if "" in prices then prices[""] else NO_PRICE;
    if IsPrice(p, prices, model) {
      PriceIsUnique(p, q, prices, model);
    }
  }

  datatype Tokens = Tokens(input: int, output: int, cached: int)

  function TotalTokens(ts: seq<Tokens>): Tokens {
    if ts == [] then Tokens(0, 0, 0)
    else
      var r := TotalTokens(ts[1..]);
      Tokens(ts[0].input + r.input, ts[0].output + r.output, ts[0].cached + r.cached)
  }

  function TotalCost(p: ModelPrice, ts: seq<Tokens>, multiplier: real): real {
    if ts == [] then 0.0
    else CostAt(p, ts[0].input, ts[0].output, ts[0].cached, multiplier) + TotalCost(p, ts[1..], multiplier)
  }

  lemma CostIsAdditive(p: ModelPrice, a: Tokens, b: Tokens, multiplier: real)
    ensures CostAt(p, a.input + b.input, a.output + b.output, a.cached + b.cached, multiplier)
         == CostAt(p, a.input, a.output, a.cached, multiplier) + CostAt(p, b.input, b.output, b.cached, multiplier)
    ensures CostAt(p, 0, 0, 0, multiplier) == 0.0
  {
  }

  /** The prices are for a million tokens of each kind, before the multiplier. */
  lemma MillionTokensCost(p: ModelPrice, multiplier: real)
    ensures CostAt(p, 1_000_000, 0, 0, multiplier) == p.input * multiplier
    ensures CostAt(p, 0, 1_000_000, 0, multiplier) == p.output * multiplier
    ensures CostAt(p, 0, 0, 1_000_000, multiplier) == p.cached * multiplier
  {
    assert 1_000_000 as real == 1000000.0;
    OneKind(p.input, multiplier);
    OneKind(p.output, multiplier);
    OneKind(p.cached, multiplier);
  }

  lemma OneKind(price: real, multiplier: real)
    ensures 1000000.0 * price / 1000000.0 * multiplier == price * multiplier
  {
  }

  /** At one price, the costs of any requests add up to the cost of all their tokens. */
  lemma {:induction false} CostsAddUp(p: ModelPrice, ts: seq<Tokens>, multiplier: real)
    ensures var t := TotalTokens(ts);
            TotalCost(p, ts, multiplier) == CostAt(p, t.input, t.output, t.cached, multiplier)
  {
    if ts == [] {
      CostIsAdditive(p, Tokens(0, 0, 0), Tokens(0, 0, 0), multiplier);
    } else {
      CostsAddUp(p, ts[1..], multiplier);
      CostIsAdditive(p, ts[0], TotalTokens(ts[1..]), multiplier);
    }
  }
}
