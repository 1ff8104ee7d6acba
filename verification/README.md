# MNIST softmax classifier in C, modelled in Dafny

The program reads the MNIST digit images and labels from their binary files.
It trains a bias-free linear softmax classifier by online stochastic gradient
descent, then predicts digits with it. This project models its three core
routines over exact reals and proves their properties:

- **Loading** (`load_mnist`). The image file and the label file are byte
  sequences, and a file that cannot be opened is `None`. Loading skips the
  16-byte image header and the 8-byte label header. It then reads `n` records
  in order: 784 image bytes, each divided by 255, then one label byte. The
  result is either `n` examples or the error the first short read reports.
- **Prediction** (`predict`). It computes ten logits, one dot product of a
  784-weight row with the pixels per class. It returns the lowest class whose
  logit is largest.
- **Training** (`train_model`). One step per example:
  - compute the same logits;
  - find their running maximum;
  - exponentiate each logit minus that maximum and sum the results;
  - divide each by the sum;
  - add `0.01 * (onehot_j - p_j) * x[k]` to weight `W[j*784 + k]`.

  One epoch is an in-order fold of this step over the dataset, and training
  runs five epochs.

Modules:

| module | contents |
|---|---|
| `Mnist` | constants (10 classes, 784 pixels, 7840 weights, header sizes, learning rate 0.01, 5 epochs), `byte`, `Example`, `Dataset`, the flat weight layout |
| `RealSeq` | left-to-right sums and normalisation by the sum |
| `Loader` | `LoadMnist` over byte sequences with its error cases |
| `LoaderProps` | header and trailing-byte irrelevance, which record fails, the encode/load round trip |
| `Classifier` | forward pass, lowest-index argmax, `Predict` |
| `StableSoftmax` | max scan and max-shifted softmax |
| `Folds` | generic left fold and repeated fold |
| `Trainer` | update, step, epoch and training, with the C loops as methods |

The C `exp` is the parameter `exp: real -> real`. Softmax assumes only that it
is positive; one lemma also assumes it is increasing. Every result here holds
for any such function.

Labels follow the code:

- The label byte is stored as read, 0..255. Nothing checks that it is a
  digit 0..9.
- A label outside 0..9 gives an all-zero one-hot target. Every error of that
  step is then `-p_j`, so every weight row moves against the image, and the
  ten errors sum to -1 rather than 0.

## Model

| member | source | states |
|---|---|---|
| `Loader.Normalize` | src/mnist.c:84-86 | a pixel byte becomes `b / 255`, lies in [0, 1], and times 255 gives the byte back |
| `Loader.ReadRecords` | src/mnist.c:74-94 | records are read in order, image before label. It succeeds exactly when every record fits, and then gives each record decoded. Otherwise it reports the first record that does not fit: an image error with the bytes actually available, or a label error |
| `Loader.LoadMnist` | src/mnist.c:61-98 | a file that does not open gives `OpenError`. Loading succeeds exactly when both files open and `n <= 0`, or when both files hold the headers plus `n` full records. Then it yields `max(n, 0)` examples of 784 pixels each, with pixel `j` of example `i` equal to byte `16 + 784*i + j` over 255, in [0, 1]. The label of example `i` is byte `8 + i`, in 0..255 |
| `LoaderProps.HeaderIrrelevant` | src/mnist.c:71-72 | files that differ only inside the 16-byte and 8-byte headers load to the same result |
| `LoaderProps.TrailingBytesIgnored` | src/mnist.c:74-94 | once `n` records load, appending bytes to either file changes nothing |
| `LoaderProps.ImageFitsBelowComplete` | src/mnist.c:76-78 | a full 784-byte read of record `k` is possible exactly when `k` is below the number of complete image records |
| `LoaderProps.FirstShortRecordDecides` | src/mnist.c:74-93 | a failed load reports the record at the smaller of the complete-image and complete-label counts. At a tie the image read, which comes first, is reported |
| `LoaderProps.TruncatedImageFails` | src/mnist.c:76-83 | a header plus 500 image bytes fails on record 0, having read 500 bytes, for any `n >= 1` |
| `LoaderProps.LoadEncoded` | src/mnist.c:61-98 | round trip: any headers followed by raw records and labels load back as exactly those records, normalised, with labels unchanged |
| `Classifier.RowDotIsSum` | src/mnist.c:148-152 | after `m` iterations of the inner accumulation, the logit is the sum of the first `m` weight-pixel products |
| `Classifier.LogitIsDotProduct` | src/mnist.c:148-152 | each logit is the dot product of its weight row `W[j*784 ..]` with the image |
| `Classifier.Forward` | src/mnist.c:147-152 | the logit vector has one entry per class. By `LogitsAreDotProducts`, entry `j` is the dot product of weight row `j` with the image |
| `Classifier.LogitsAreDotProducts` | src/mnist.c:147-152 | every entry of the logit vector is the sum of its row's weight-pixel products |
| `Classifier.ForwardPass` | src/mnist.c:110-116 | the nested loops starting from zero logits compute, for every class, the accumulated dot product of its row |
| `Classifier.ArgMax` | src/mnist.c:154-161 | the scan that moves only on a strictly larger logit returns an index holding the maximum, with every earlier entry strictly smaller |
| `Classifier.ArgMaxCharacterized` | src/mnist.c:154-161 | the scan's result is the lowest maximal index, in both directions |
| `Classifier.ArgMaxOrderInvariant` | src/mnist.c:154-161 | two logit vectors whose entries compare alike have the same prediction |
| `Classifier.Predict` | src/mnist.c:146-162 | the prediction is a class in 0..9 whose logit is at least every logit and strictly above every lower class's logit |
| `Classifier.ZeroWeightsPredictZero` | src/mnist.c:192 | with the all-zero weights the program starts from, every logit is 0 and the prediction is class 0 |
| `StableSoftmax.MaxScan` | src/mnist.c:118-122 | the running maximum is one of the logits and is at least every logit |
| `StableSoftmax.MaxScanIsArgMaxValue` | src/mnist.c:118-122 | the trainer's value scan finds the logit at the class `predict` would return |
| `StableSoftmax.Softmax` | src/mnist.c:123-130 | the probabilities have one entry per class, each in (0, 1], and they sum to 1 |
| `StableSoftmax.SoftmaxShiftInvariant` | src/mnist.c:118-130 | adding one constant to every logit leaves the probabilities unchanged |
| `StableSoftmax.SoftmaxPreservesArgMax` | src/mnist.c:123-130 | with an increasing `exp`, the most probable class is the class of the largest logit |
| `Trainer.Update` | src/mnist.c:132-137 | the update keeps 7840 weights. By `UpdateWeights`, weight `W[j*784 + k]` gains `0.01 * err[j] * x[k]`, and by `UpdateInverse` the update with the negated error undoes it |
| `Trainer.UpdateWeight` | src/mnist.c:132-137 | weight `W[j*784 + k]` moves by `lr * err[j] * x[k]` |
| `Trainer.UpdateWeights` | src/mnist.c:132-137 | every weight moves by `lr * err[j] * x[k]`, and a zero pixel leaves its weight in every row unchanged |
| `Trainer.UpdateInverse` | src/mnist.c:132-137 | the update followed by the update with the negated error restores the weights, so each weight is touched once, additively |
| `Trainer.StepChangesWeight` | src/mnist.c:132-137 | one step changes `W[j*784 + k]` by exactly `0.01 * (onehot_j - p_j) * x[k]`, with `p` the softmax of the step's logits, and zero pixels change nothing |
| `Trainer.Step` | src/mnist.c:107-137 | one step keeps 7840 weights. It is the update with error `onehot - p`, where `p` is the softmax of the forward pass. By `StepChangesWeight`, weight `W[j*784 + k]` moves by `0.01 * (onehot_j - p_j) * x[k]` |
| `Trainer.ErrorSignalSum` | src/mnist.c:133 | the ten errors sum to 0 when the label names a class, and to -1 when it does not |
| `Trainer.UniformFromZero` | src/mnist.c:118-130 | from zero weights, every class probability is exactly 1/10 |
| `Trainer.FirstStepFromZero` | src/mnist.c:132-137 | the first step from zero weights adds `0.01 * 0.9 * x[k]` to the true class row and `0.01 * -0.1 * x[k]` to every other row |
| `Trainer.Epoch` | src/mnist.c:106-138 | an epoch keeps 7840 weights. It folds the step over the examples in order. The fold uses `StepFn`, which is `Step` whenever the weights and the example have their fixed sizes and `exp` is positive. By `EpochSnoc`, each example runs exactly `Step` on the weights the previous one left |
| `Trainer.EpochSnoc` | src/mnist.c:106-138 | each example of an epoch runs one step on the weights the previous example left |
| `Trainer.EpochsAreOneFold` | src/mnist.c:105-106 | `e` epochs equal one in-order fold over the dataset repeated `e` times |
| `Trainer.Train` | src/mnist.c:100-144 | training keeps 7840 weights. It runs five epochs, each from the weights the previous left. By `TrainIsOneFold`, this is one in-order fold of `Step` over the dataset written out five times |
| `Trainer.TrainIsOneFold` | src/mnist.c:103-106 | training is one in-order fold over the dataset written out five times, with no shuffling between epochs |
| `Trainer.MaxLogit` | src/mnist.c:118-122 | the loop from `logits[0]`, replacing on a strictly larger entry, yields the maximum logit |
| `Trainer.ExpAndSum` | src/mnist.c:123-127 | the loop overwrites each logit with `exp(logit - max)`, and the sum is the sum of those values |
| `Trainer.NormalizeProbs` | src/mnist.c:128-130 | dividing every entry by the sum gives the normalised probabilities, which sum to 1 |
| `Trainer.ApplyUpdate` | src/mnist.c:132-137 | the nested update loops give the update, entry by entry |
| `Trainer.SgdStep` | src/mnist.c:107-137 | the per-example loop body computes exactly one step of the model |
| `Trainer.RunEpoch` | src/mnist.c:106-138 | the example loop computes one epoch |
| `Trainer.TrainModel` | src/mnist.c:100-144 | the epoch loop computes the five-epoch training result |

## Left out

- `display_image`, `test_and_display`, `sigmoid`, `normalize_image` and `main` are not part of this model. They are printing, evaluation and unused helpers outside the core. The only part of `main` used is that weights start at zero (`calloc`).
- File handling: opening a file is modelled as `Some` bytes or `None`, and `fclose` is not modelled. The `fprintf`/`exit(1)` on an error is modelled as a `Failure` value carrying what the message reports.
- The "Epoch %d completed" `printf` of `train_model` is output only and is left out.
- Arithmetic is exact over `real`, so IEEE double rounding is not modelled. The sum of the probabilities is exactly 1 here, where in doubles it is only close to 1.
- `exp` is a parameter assumed positive. In doubles `exp` of a very negative argument underflows to 0, which would give a probability of 0.
- Memory allocation and the caller's array sizes are not modelled. The types fix 784 pixels per example and 7840 weights.
- Trainer.Epoch: training is modelled only on well-formed datasets of 784-pixel examples. The step is made total for the fold by leaving the weights unchanged when that shape does not hold, and the trainer never reaches that case.
