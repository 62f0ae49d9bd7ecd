/** The difficulty selection screen's state holder. */
module DifficultySelect {
  import opened DataManagement

  class DifficultySelectViewModel {
    var mineDifficulty: DifficultyOption
    var sizeDifficulty: DifficultyOption

    /** Both selections start at the middle option. */
    constructor ()
      ensures mineDifficulty == MEDIUM && sizeDifficulty == MEDIUM
    {
      mineDifficulty := MEDIUM;
      sizeDifficulty := MEDIUM;
    }

    /** `onMineDifficultyChange`: the new mine difficulty, the size difficulty kept. */
    method OnMineDifficultyChange(option: DifficultyOption)
      modifies this
      ensures mineDifficulty == option && sizeDifficulty == old(sizeDifficulty)
    {
      mineDifficulty := option;
    }

    /** `onSizeDifficultyChange`: the new size difficulty, the mine difficulty kept. */
    method OnSizeDifficultyChange(option: DifficultyOption)
      modifies this
      ensures sizeDifficulty == option && mineDifficulty == old(mineDifficulty)
    {
      sizeDifficulty := option;
    }
  }
}
