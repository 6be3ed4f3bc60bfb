/**
 * The processing-device choice and the compute type that follows from it.
 * Whether CUDA is available is detected outside the model and arrives as a
 * boolean.
 */
module Device {

  /** The three labels of the device radio button. */
  datatype DeviceChoice = Auto | Gpu | Cpu

  /** The `device_options` table: the value each label maps to. */
  function OptionValue(choice: DeviceChoice): string {
    match choice
    case Auto => "auto"
    case Gpu => "cuda"
    case Cpu => "cpu"
  }

  /** The label the radio button starts on: `AUTO` with CUDA, `CPU` without. */
  function DefaultChoice(cudaAvailable: bool): DeviceChoice {
    if cudaAvailable then Auto else Cpu
  }

  /**
   * The device handed to the speech engine. `AUTO` becomes `"cuda"` exactly
   * when CUDA is available; the manual labels take their table value.
   */
  function ResolveDevice(choice: DeviceChoice, cudaAvailable: bool): (device: string)
    ensures device == "cuda" || device == "cpu"
    ensures device == "cuda" <==> choice == Gpu || (choice == Auto && cudaAvailable)
  {
    if choice == Auto then (if cudaAvailable then "cuda" else "cpu")
    else OptionValue(choice)
  }

  /** The numeric precision the engine is loaded with for `device`. */
  function ComputeType(device: string): (computeType: string)
    ensures computeType == "float16" || computeType == "int8"
    ensures computeType == "float16" <==> device == "cuda"
  {
    if device == "cuda" then "float16" else "int8"
  }

  /** A manual choice is its table value, whatever CUDA's availability. */
  lemma ManualChoiceIgnoresCuda(choice: DeviceChoice, cudaAvailable: bool)
    requires choice != Auto
    ensures ResolveDevice(choice, cudaAvailable) == OptionValue(choice)
    ensures ResolveDevice(choice, cudaAvailable) == ResolveDevice(choice, !cudaAvailable)
  {
  }

  /** The `"auto"` placeholder of the table never reaches the engine. */
  lemma ResolvedIsNeverAuto(choice: DeviceChoice, cudaAvailable: bool)
    ensures ResolveDevice(choice, cudaAvailable) != OptionValue(Auto)
  {
  }

  /** Leaving the radio button on its default gives what `AUTO` gives. */
  lemma DefaultAgreesWithAuto(cudaAvailable: bool)
    ensures ResolveDevice(DefaultChoice(cudaAvailable), cudaAvailable)
            == ResolveDevice(Auto, cudaAvailable)
  {
  }

  /** Half precision is used exactly when the GPU is used. */
  lemma HalfPrecisionOnlyOnGpu(choice: DeviceChoice, cudaAvailable: bool)
    ensures ComputeType(ResolveDevice(choice, cudaAvailable)) == "float16"
            <==> choice == Gpu || (choice == Auto && cudaAvailable)
    ensures ComputeType(ResolveDevice(choice, cudaAvailable)) == "int8"
            <==> ResolveDevice(choice, cudaAvailable) == "cpu"
  {
  }
}
