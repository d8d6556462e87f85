/** The constants the benchmark is built from: the model configuration and the
    shape of the synthetic input tensor (src/main.rs, lines 70-92). */
module Config {

  /** Rust's `u64`: the type of the timing values and of the iteration count. */
  const U64_LIMIT: int := 0x1_0000_0000_0000_0000
  type u64 = x: int | 0 <= x < U64_LIMIT

  /** Configuration of the hidden layers of the perceptron. The dropout rate is
      an `f32` in the source; it is only carried here, never computed with. */
  datatype MlpConfig = MlpConfig(numLayers: nat, dropout: real, dModel: nat)

  /** Configuration of the whole model. */
  datatype MnistConfig = MnistConfig(seed: u64, mlp: MlpConfig, inputSize: nat, outputSize: nat)

  const MLP_CONFIG: MlpConfig := MlpConfig(2, 0.2, 64)
  const MNIST_CONFIG: MnistConfig := MnistConfig(42, MLP_CONFIG, 64, 10)

  /** Shape of the random input: one batch of an 8 x 8 image. */
  const INPUT_SHAPE: seq<nat> := [1, 8, 8]

  /** Number of forward passes the benchmark times. */
  const N: u64 := 30

  /** Number of elements of a tensor of the given shape. */
  function Product(shape: seq<nat>): nat {
    if shape == [] then 1 else shape[0] * Product(shape[1..])
  }

  /** A shape holds no elements exactly when some dimension is zero. */
  lemma {:induction false} ProductZero(shape: seq<nat>)
    ensures Product(shape) == 0 <==> exists i :: 0 <= i < |shape| && shape[i] == 0
  {
    if shape != [] {
      ProductZero(shape[1..]);
      if Product(shape[1..]) == 0 {
        var i :| 0 <= i < |shape[1..]| && shape[1..][i] == 0;
        assert shape[i + 1] == 0;
      }
      if shape[0] != 0 && Product(shape[1..]) != 0 {
        assert shape[0] * Product(shape[1..]) != 0;
        forall i | 0 <= i < |shape|
          ensures shape[i] != 0
        {
          if i > 0 {
            assert shape[i] == shape[1..][i - 1];
          }
        }
      }
    }
  }

  /** Flattening is compositional: leading (batch) dimensions multiply the
      element count of the trailing dimensions. */
  lemma {:induction false} ProductAppend(a: seq<nat>, b: seq<nat>)
    ensures Product(a + b) == Product(a) * Product(b)
  {
    if a == [] {
      assert a + b == b;
    } else {
      assert (a + b)[1..] == a[1..] + b;
      ProductAppend(a[1..], b);
      var h, p, q := a[0], Product(a[1..]), Product(b);
      assert Product(a + b) == h * (p * q);
      assert h * (p * q) == (h * p) * q;
    }
  }

  /** The input flattens to exactly the configured input size, and it does so
      as a single batch whose trailing dimensions hold one input vector. */
  lemma {:induction false} InputShapeMatchesConfig()
    ensures Product(INPUT_SHAPE) == MNIST_CONFIG.inputSize
    ensures INPUT_SHAPE[0] == 1 && Product(INPUT_SHAPE[1..]) == MNIST_CONFIG.inputSize
  {
    ProductAppend([INPUT_SHAPE[0]], INPUT_SHAPE[1..]);
  }
}
